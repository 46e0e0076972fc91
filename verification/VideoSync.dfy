/** Constant-frame-rate output: how many times a frame is encoded, and the duplicate, drop and
    pending-drop counters that account for it. Times are exact reals in encoder time-base units. */
module VideoSync {
  import opened Options

  datatype Mode = Passthrough | Cfr | Vfr | Vscfr | Drop

  /** maxFrames: frame limit; dropThreshold: 0 when off; dupLimit: largest accepted frame count of
      one call; inTime: whether encoding at a given output time is still within recording time. */
  datatype Cfg = Cfg(mode: Mode, maxFrames: nat, dropThreshold: real, dupLimit: real, inTime: int -> bool)

  /** A new picture: where it starts in the output, and how long it lasts. */
  datatype Input = Input(ipts: real, duration: real)

  /** One frame given to the encoder: its timestamp, whether the previous picture was repeated, and
      which of the pictures offered so far it shows. */
  datatype Encoded = Encoded(pts: int, repeat: bool, pic: int)

  /** The last five are histories: frames encoded, pictures offered, number of the last picture, frames
      decided on but never encoded, and miscounts (see Balance). */
  datatype Stream = Stream(syncOpts: int, frameNumber: nat, lastNb0: (int, int, int), lastDropped: bool,
                           hasLast: bool, dup: int, drop: int, out: seq<Encoded>,
                           inputs: nat, lastPic: int, cut: nat, drift: nat)

  /** Nearest integer, ties to even. */
  function Round(x: real): (r: int)
    ensures -0.5 <= x - r as real <= 0.5
  {
    var f := x.Floor;
    var d := x - f as real;
    if d < 0.5 then f else if d > 0.5 then f + 1 else if f % 2 == 0 then f else f + 1
  }

  function Min(a: int, b: int): int {
    if a <= b then a else b
  }

  function MidPred(a: int, b: int, c: int): int {
    if a > b then (if c > b then (if c > a then a else c) else b)
    else (if b > c then (if c > a then c else a) else b)
  }

  function Bit(b: bool): int {
    if b then 1 else 0
  }

  /** The frame counts before the limits apply, and the output position. */
  datatype Plan = Plan(nb: int, nb0: int, syncOpts: int)

  function PlanCfr(c: Cfg, s: Stream, delta0: real, delta: real, syncOpts: int): Plan {
    if c.dropThreshold != 0.0 && delta < c.dropThreshold && s.frameNumber != 0 then Plan(0, 0, syncOpts)
    else if delta < -1.1 then Plan(0, 0, syncOpts)
    else if delta > 1.1 then Plan(Round(delta), if delta0 > 1.1 then Round(delta0 - 0.6) else 0, syncOpts)
    else Plan(1, 0, syncOpts)
  }

  function PlanInput(c: Cfg, s: Stream, p: Input): Plan {
    var drift := p.ipts - s.syncOpts as real;
    var delta := drift + p.duration;
    var clip := drift < 0.0 && delta > 0.0 && c.mode != Passthrough && c.mode != Drop;
    var ipts := if clip then s.syncOpts as real else p.ipts;
    var delta0 := if clip then 0.0 else drift;
    match c.mode
    case Vscfr =>
      if s.frameNumber == 0 && delta0 >= 0.5 then PlanCfr(c, s, 0.0, p.duration, Round(ipts))
      else PlanCfr(c, s, delta0, delta, s.syncOpts)
    case Cfr => PlanCfr(c, s, delta0, delta, s.syncOpts)
    case Vfr =>
      if delta <= -0.6 then Plan(0, 0, s.syncOpts)
      else if delta > 0.6 then Plan(1, 0, Round(ipts))
      else Plan(1, 0, s.syncOpts)
    case _ => Plan(1, 0, Round(ipts))
  }

  function PlanFor(c: Cfg, s: Stream, next: Option<Input>): Plan {
    match next
    case None =>
      var n := MidPred(s.lastNb0.0, s.lastNb0.1, s.lastNb0.2);
      Plan(n, n, s.syncOpts)
    case Some(p) => PlanInput(c, s, p)
  }

  function Limited(c: Cfg, s: Stream, next: Option<Input>): Plan {
    var p := PlanFor(c, s, next);
    var nb := Min(p.nb, c.maxFrames - s.frameNumber);
    Plan(nb, Min(p.nb0, nb), p.syncOpts)
  }

  /** Frames that are neither the pending one nor the new one. */
  function Extra(s: Stream, p: Plan): int {
    p.nb - Bit(p.nb0 != 0 && s.lastDropped) - Bit(p.nb > p.nb0)
  }

  predicate Skips(c: Cfg, s: Stream, p: Plan) {
    Extra(s, p) > 0 && p.nb as real > c.dupLimit
  }

  /** The last picture or the new one is encoded at the output position. */
  ghost function WithFrame(s: Stream, repeat: bool): Stream {
    s.(out := s.out + [Encoded(s.syncOpts, repeat, if repeat then s.lastPic else s.inputs - 1)],
       syncOpts := s.syncOpts + 1, frameNumber := s.frameNumber + 1)
  }

  /** Encoding frames i..nb: stops where there is no picture or recording time is over. */
  ghost function EncodeFrom(c: Cfg, s: Stream, p: Plan, hasNext: bool, i: nat): (r: Stream)
    requires i <= p.nb
    decreases p.nb - i
  {
    if i == p.nb then s.(hasLast := hasNext, lastPic := if hasNext then s.inputs - 1 else s.lastPic)
    else
      var repeat := i < p.nb0 && s.hasLast;
      if (!repeat && !hasNext) || !c.inTime(s.syncOpts) then s.(cut := s.cut + (p.nb - i))
      else
        EncodeFrom(c, WithFrame(s, repeat), p, hasNext, i + 1)
  }

  /** The state after one call of do_video_out. */
  ghost function Step(c: Cfg, s: Stream, next: Option<Input>): (r: Stream)
    requires Ok(c, s)
  {
    LimitedInRange(c, s, next);
    var p := Limited(c, s, next);
    var pending := p.nb0 == 0 && s.lastDropped;
    var s1 := s.(syncOpts := p.syncOpts, lastNb0 := (p.nb0, s.lastNb0.0, s.lastNb0.1),
                 drop := s.drop + Bit(pending), inputs := s.inputs + Bit(next.Some?));
    if Skips(c, s, p) then
      s1.(drop := s1.drop + 1, drift := s1.drift + Bit(pending) + Bit(next.None?))
    else
      EncodeFrom(c, s1.(dup := s1.dup + Extra(s, p), lastDropped := p.nb == p.nb0 && next.Some?),
                 p, next.Some?, 0)
  }

  ghost predicate Ok(c: Cfg, s: Stream) {
    s.frameNumber <= c.maxFrames && s.lastNb0.0 >= 0 && s.lastNb0.1 >= 0 && s.lastNb0.2 >= 0
  }

  /** The counts are ordered and never negative, so the extra frames are not either. */
  lemma {:induction false} LimitedInRange(c: Cfg, s: Stream, next: Option<Input>)
    requires Ok(c, s)
    ensures var p := Limited(c, s, next);
            && 0 <= p.nb0 <= p.nb <= c.maxFrames - s.frameNumber && Extra(s, p) >= 0
            && (next.None? ==> p.nb == p.nb0)
  {
  }

  /** The encoder gets consecutive timestamps; the first nb0 frames repeat the previous picture. */
  lemma {:induction false} EncodeEffect(c: Cfg, s: Stream, p: Plan, hasNext: bool, i: nat)
    requires i <= p.nb && s.frameNumber + (p.nb - i) <= c.maxFrames
    ensures var r := EncodeFrom(c, s, p, hasNext, i);
            var n := |r.out| - |s.out|;
            && 0 <= n <= p.nb - i && s.out <= r.out
            && r.cut == s.cut + (p.nb - i - n)
            && r.syncOpts == s.syncOpts + n && r.frameNumber == s.frameNumber + n
            && r == s.(out := r.out, cut := r.cut, syncOpts := r.syncOpts, frameNumber := r.frameNumber,
                       hasLast := r.hasLast, lastPic := r.lastPic)
            && forall k :: |s.out| <= k < |r.out| ==>
                 r.out[k].pts == s.syncOpts + (k - |s.out|)
                 && (r.out[k].repeat <==> i + (k - |s.out|) < p.nb0 && s.hasLast)
                 && r.out[k].pic == if r.out[k].repeat then s.lastPic else s.inputs - 1
    decreases p.nb - i
  {
    if i < p.nb {
      var repeat := i < p.nb0 && s.hasLast;
      if !((!repeat && !hasNext) || !c.inTime(s.syncOpts)) {
        EncodeEffect(c, WithFrame(s, repeat), p, hasNext, i + 1);
      }
    }
  }

  /** Encoded frames beyond what the counters explain: inputs plus duplicates minus drops, the
      pending drop included. */
  ghost function Surplus(s: Stream): int {
    |s.out| - s.inputs - s.dup + s.drop + Bit(s.lastDropped)
  }

  /** The surplus with cut frames and miscounts made good. drift counts the miscounts of the
      over-long-duplication exit, which drops the new picture, even when there is none, but leaves an
      already counted pending drop pending. */
  ghost function Balance(s: Stream): int {
    Surplus(s) + s.cut - s.drift
  }

  /** The counters after a call that is not skipped, before it encodes anything. */
  ghost function Counted(s: Stream, p: Plan, next: Option<Input>): Stream {
    s.(syncOpts := p.syncOpts, lastNb0 := (p.nb0, s.lastNb0.0, s.lastNb0.1),
       drop := s.drop + Bit(p.nb0 == 0 && s.lastDropped), inputs := s.inputs + Bit(next.Some?),
       dup := s.dup + Extra(s, p), lastDropped := p.nb == p.nb0 && next.Some?)
  }

  /** The state after a call that is skipped. */
  ghost function Skipped(s: Stream, p: Plan, next: Option<Input>): Stream {
    var pending := Bit(p.nb0 == 0 && s.lastDropped);
    s.(syncOpts := p.syncOpts, lastNb0 := (p.nb0, s.lastNb0.0, s.lastNb0.1), inputs := s.inputs + Bit(next.Some?),
       drop := s.drop + pending + 1, drift := s.drift + pending + Bit(next.None?))
  }

  lemma {:induction false} StepUnfold(c: Cfg, s: Stream, next: Option<Input>, p: Plan)
    requires Ok(c, s) && p == Limited(c, s, next)
    ensures 0 <= p.nb0 <= p.nb <= c.maxFrames - s.frameNumber && Extra(s, p) >= 0 && (next.None? ==> p.nb == p.nb0)
    ensures Step(c, s, next) ==
            if Skips(c, s, p) then Skipped(s, p, next) else EncodeFrom(c, Counted(s, p, next), p, next.Some?, 0)
  {
    hide PlanFor, EncodeFrom, Skips;
    LimitedInRange(c, s, next);
    hide Limited;
  }

  /** No call changes the balance. */
  lemma {:induction false} StepBalances(c: Cfg, s: Stream, next: Option<Input>)
    requires Ok(c, s)
    ensures Balance(Step(c, s, next)) == Balance(s) && Ok(c, Step(c, s, next))
  {
    hide Limited, EncodeFrom, Skips, Step;
    var p := Limited(c, s, next);
    StepUnfold(c, s, next, p);
    if !Skips(c, s, p) {
      EncodeEffect(c, Counted(s, p, next), p, next.Some?, 0);
    }
  }

  /** All the output times of one call are within recording time. */
  ghost predicate InTime(c: Cfg, p: Plan) {
    forall t :: p.syncOpts <= t < p.syncOpts + p.nb ==> c.inTime(t)
  }

  /** Frames that the counters promise are not encoded: a flush without a last picture to repeat,
      or the end of recording time. */
  ghost predicate CutsShort(c: Cfg, s: Stream, next: Option<Input>) {
    var p := Limited(c, s, next);
    !Skips(c, s, p) && p.nb > 0 && ((next.None? && !s.hasLast) || !InTime(c, p))
  }

  /** The over-long exit on a flush, or with a drop pending that it has just counted. */
  predicate Miscounts(c: Cfg, s: Stream, next: Option<Input>) {
    var p := Limited(c, s, next);
    Skips(c, s, p) && (next.None? || (p.nb0 == 0 && s.lastDropped))
  }

  /** When the encode loop runs to its end. */
  lemma {:induction false} EncodesAllIff(c: Cfg, s: Stream, p: Plan, hasNext: bool, i: nat)
    requires i <= p.nb && (hasNext || p.nb0 == p.nb)
    ensures var r := EncodeFrom(c, s, p, hasNext, i);
            && (r.cut == s.cut <==>
                  i == p.nb || ((hasNext || s.hasLast)
                                && forall t :: s.syncOpts <= t < s.syncOpts + (p.nb - i) ==> c.inTime(t)))
            && (r.cut == s.cut ==> r.hasLast == hasNext && r.lastPic == if hasNext then s.inputs - 1 else s.lastPic)
    decreases p.nb - i
  {
    if i < p.nb {
      var repeat := i < p.nb0 && s.hasLast;
      if (!repeat && !hasNext) || !c.inTime(s.syncOpts) {
        assert EncodeFrom(c, s, p, hasNext, i).cut == s.cut + (p.nb - i);
      } else {
        var s1 := WithFrame(s, repeat);
        EncodesAllIff(c, s1, p, hasNext, i + 1);
      }
    }
  }

  /** The guards of one call decide what it cuts and miscounts, and whether a last picture remains. */
  lemma {:induction false} StepGuards(c: Cfg, s: Stream, next: Option<Input>)
    requires Ok(c, s)
    ensures var r := Step(c, s, next);
            && r.cut >= s.cut && (r.cut > s.cut <==> CutsShort(c, s, next))
            && r.drift >= s.drift && (r.drift > s.drift <==> Miscounts(c, s, next))
            && (CutsShort(c, s, next) ==> r.drift == s.drift)
            && (!Skips(c, s, Limited(c, s, next)) && !CutsShort(c, s, next) ==> r.hasLast == next.Some?)
  {
    hide Limited, EncodeFrom, Skips, Step;
    var p := Limited(c, s, next);
    StepUnfold(c, s, next, p);
    if !Skips(c, s, p) {
      EncodeEffect(c, Counted(s, p, next), p, next.Some?, 0);
      EncodesAllIff(c, Counted(s, p, next), p, next.Some?, 0);
    }
  }

  /** The exact condition under which one call keeps encoded = inputs + dup - drop - pending. */
  lemma {:induction false} StepExactIff(c: Cfg, s: Stream, next: Option<Input>)
    requires Ok(c, s)
    ensures Surplus(Step(c, s, next)) == Surplus(s) <==> !Miscounts(c, s, next) && !CutsShort(c, s, next)
  {
    hide Step, Miscounts, CutsShort, Surplus;
    StepBalances(c, s, next);
    StepGuards(c, s, next);
  }

  ghost function Start(syncOpts: int): Stream {
    Stream(syncOpts, 0, (0, 0, 0), false, false, 0, 0, [], 0, -1, 0, 0)
  }

  ghost function Run(c: Cfg, s: Stream, calls: seq<Option<Input>>): (r: Stream)
    requires Ok(c, s)
    ensures Ok(c, r)
    decreases |calls|
  {
    if calls == [] then s
    else
      StepBalances(c, s, calls[0]);
      Run(c, Step(c, s, calls[0]), calls[1..])
  }

  lemma {:induction false} RunBalances(c: Cfg, s: Stream, calls: seq<Option<Input>>)
    requires Ok(c, s)
    ensures Balance(Run(c, s, calls)) == Balance(s)
    decreases |calls|
  {
    if calls != [] {
      StepBalances(c, s, calls[0]);
      RunBalances(c, Step(c, s, calls[0]), calls[1..]);
    }
  }

  /** What the final report adds. */
  function ReportedDrops(s: Stream): int {
    s.drop + Bit(s.lastDropped)
  }

  ghost predicate ExactCalls(c: Cfg, s: Stream, calls: seq<Option<Input>>)
    requires Ok(c, s)
    decreases |calls|
  {
    calls == [] ||
    (&& !Miscounts(c, s, calls[0]) && !CutsShort(c, s, calls[0])
     && (StepBalances(c, s, calls[0]); ExactCalls(c, Step(c, s, calls[0]), calls[1..])))
  }

  /** The surplus has the given value now and after every call. */
  ghost predicate Throughout(c: Cfg, s: Stream, calls: seq<Option<Input>>, surplus: int)
    requires Ok(c, s)
    decreases |calls|
  {
    && Surplus(s) == surplus
    && (calls == [] || (StepBalances(c, s, calls[0]); Throughout(c, Step(c, s, calls[0]), calls[1..], surplus)))
  }

  /** The counters are right after every call of a run exactly when no call miscounts or is cut. */
  lemma {:induction false} RunExactIff(c: Cfg, s: Stream, calls: seq<Option<Input>>)
    requires Ok(c, s)
    ensures Throughout(c, s, calls, Surplus(s)) <==> ExactCalls(c, s, calls)
    ensures ExactCalls(c, s, calls) ==> Surplus(Run(c, s, calls)) == Surplus(s)
    decreases |calls|
  {
    hide Step, Miscounts, CutsShort, Surplus;
    if calls != [] {
      StepBalances(c, s, calls[0]);
      StepExactIff(c, s, calls[0]);
      var s1 := Step(c, s, calls[0]);
      RunExactIff(c, s1, calls[1..]);
      if Surplus(s1) != Surplus(s) {
        assert !Throughout(c, s1, calls[1..], Surplus(s));
      }
    }
  }

  /** No call takes the over-long exit or meets the end of recording time. */
  ghost predicate Smooth(c: Cfg, s: Stream, calls: seq<Option<Input>>)
    requires Ok(c, s)
    decreases |calls|
  {
    calls == [] ||
    (&& !Skips(c, s, Limited(c, s, calls[0])) && InTime(c, Limited(c, s, calls[0]))
     && (StepBalances(c, s, calls[0]); Smooth(c, Step(c, s, calls[0]), calls[1..])))
  }

  function Flushes(calls: seq<Option<Input>>): nat {
    if calls == [] then 0 else Bit(calls[0].None?) + Flushes(calls[1..])
  }

  /** A last picture, or nothing to repeat. */
  ghost predicate CanFlush(s: Stream) {
    s.hasLast || s.lastNb0 == (0, 0, 0)
  }

  /** In a smooth run with one flush the flush has a last picture whenever it needs one. */
  lemma {:induction false} SmoothIsExact(c: Cfg, s: Stream, calls: seq<Option<Input>>)
    requires Ok(c, s) && Smooth(c, s, calls) && Flushes(calls) <= if CanFlush(s) then 1 else 0
    ensures ExactCalls(c, s, calls)
    decreases |calls|
  {
    hide Step, Skips, PlanInput;
    if calls != [] {
      StepBalances(c, s, calls[0]);
      StepGuards(c, s, calls[0]);
      hide Limited;
      if calls[0].None? && !s.hasLast {
        NothingToRepeat(c, s);
      }
      SmoothIsExact(c, Step(c, s, calls[0]), calls[1..]);
    }
  }

  lemma {:induction false} NothingToRepeat(c: Cfg, s: Stream)
    requires Ok(c, s) && s.lastNb0 == (0, 0, 0)
    ensures Limited(c, s, None).nb == 0
  {
  }

  lemma {:induction false} RunInputs(c: Cfg, s: Stream, calls: seq<Option<Input>>)
    requires Ok(c, s)
    ensures Run(c, s, calls).inputs == s.inputs + |calls| - Flushes(calls)
    decreases |calls|
  {
    if calls != [] {
      StepBalances(c, s, calls[0]);
      StepInputs(c, s, calls[0]);
      RunInputs(c, Step(c, s, calls[0]), calls[1..]);
    }
  }

  lemma {:induction false} StepInputs(c: Cfg, s: Stream, next: Option<Input>)
    requires Ok(c, s)
    ensures Step(c, s, next).inputs == s.inputs + Bit(next.Some?)
  {
    hide Limited, EncodeFrom, Skips, Step;
    var p := Limited(c, s, next);
    StepUnfold(c, s, next, p);
    if !Skips(c, s, p) {
      EncodeEffect(c, Counted(s, p, next), p, next.Some?, 0);
    }
  }

  /** Over any run from the start without an over-long duplication, the end of recording time or a
      repeated flush: encoded frames are pictures offered plus duplicates minus reported drops. In
      any run at all they differ from that by exactly the cut frames and the miscounts. */
  lemma {:induction false} Conservation(c: Cfg, sync0: int, calls: seq<Option<Input>>)
    ensures var r := Run(c, Start(sync0), calls);
            && r.inputs == |calls| - Flushes(calls)
            && |r.out| + r.cut == r.inputs + r.dup - ReportedDrops(r) + r.drift
            && (Smooth(c, Start(sync0), calls) && Flushes(calls) <= 1 ==>
                  |r.out| == r.inputs + r.dup - ReportedDrops(r))
  {
    hide Smooth;
    RunBalances(c, Start(sync0), calls);
    RunInputs(c, Start(sync0), calls);
    if Smooth(c, Start(sync0), calls) && Flushes(calls) <= 1 {
      SmoothIsExact(c, Start(sync0), calls);
      RunExactIff(c, Start(sync0), calls);
    }
  }

  // Runs in which the counters are wrong

  /** A drop is pending when an over-long gap is skipped. */
  lemma {:induction false} MiscountHappens()
    ensures var c := Cfg(Cfr, 1000, 0.0, 10.0, t => true);
            var r := Run(c, Start(0), [Some(Input(-5.0, 1.0)), Some(Input(0.0, 15.0))]);
            r.cut == 0 && |r.out| != r.inputs + r.dup - ReportedDrops(r)
  {
    hide Step, Limited;
    var c := Cfg(Cfr, 1000, 0.0, 10.0, t => true);
    var a, b := Some(Input(-5.0, 1.0)), Some(Input(0.0, 15.0));
    TooEarly(c, Start(0), -5.0, 1.0);
    var s1 := Step(c, Start(0), a);
    TooLong(c, s1, 0.0, 15.0);
    RunTwo(c, Start(0), a, b);
  }

  /** Recording time is over before the only picture. */
  lemma {:induction false} LateHappens()
    ensures var c := Cfg(Cfr, 1000, 0.0, 10.0, t => false);
            Surplus(Run(c, Start(0), [Some(Input(0.0, 1.0))])) < 0
  {
    hide Step, Run, Limited;
    var c := Cfg(Cfr, 1000, 0.0, 10.0, t => false);
    OnTime(c, Start(0), Input(0.0, 1.0));
    RunOne(c, Start(0), Some(Input(0.0, 1.0)));
    StartIsEven();
  }

  lemma {:induction false} RunOne(c: Cfg, s: Stream, next: Option<Input>)
    requires Ok(c, s)
    ensures Run(c, s, [next]) == Step(c, s, next)
  {
    hide Step;
    StepBalances(c, s, next);
    assert [next][1..] == [];
  }

  /** One frame is due, but recording time is over. */
  lemma {:induction false} OnTime(c: Cfg, s: Stream, p: Input)
    requires Ok(c, s) && c.mode == Cfr && c.dropThreshold == 0.0 && s.frameNumber < c.maxFrames
    requires p.ipts == s.syncOpts as real && p.duration == 1.0 && !c.inTime(s.syncOpts)
    ensures Surplus(Step(c, s, Some(p))) < Surplus(s)
  {
    OneFrame(c, s, p);
    StepBalances(c, s, Some(p));
    StepGuards(c, s, Some(p));
    hide PlanFor, Step, Limited;
  }

  lemma {:induction false} OneFrame(c: Cfg, s: Stream, p: Input)
    requires Ok(c, s) && c.mode == Cfr && c.dropThreshold == 0.0 && s.frameNumber < c.maxFrames
    requires p.ipts == s.syncOpts as real && p.duration == 1.0
    ensures Limited(c, s, Some(p)) == Plan(1, 0, s.syncOpts) && !Skips(c, s, Limited(c, s, Some(p)))
  {
    assert PlanFor(c, s, Some(p)) == Plan(1, 0, s.syncOpts);
  }

  /** A second flush counts duplicates of a last picture that the first one has given up. */
  lemma {:induction false} SecondFlushHappens()
    ensures var c := Cfg(Cfr, 1000, 0.0, 10.0, t => true);
            Surplus(Run(c, Start(0), [Some(Input(3.0, 1.0)), Some(Input(7.0, 1.0)), None, None])) == -2
  {
    hide Step, Limited, Surplus, Skips, CutsShort, Miscounts;
    var c := Cfg(Cfr, 1000, 0.0, 10.0, t => true);
    Gap(c, Start(0));
    var s1 := Step(c, Start(0), Some(Input(3.0, 1.0)));
    Gap(c, s1);
    var s2 := Step(c, s1, Some(Input(7.0, 1.0)));
    FlushOfTwo(c, s2);
    var s3 := Step(c, s2, None);
    FlushOfTwo(c, s3);
    RunTwo(c, Start(0), Some(Input(3.0, 1.0)), Some(Input(7.0, 1.0)));
    RunTwo(c, s2, None, None);
    RunAppend(c, Start(0), [Some(Input(3.0, 1.0)), Some(Input(7.0, 1.0))], [None, None]);
    StartIsEven();
  }

  lemma {:induction false} StartIsEven()
    ensures Surplus(Start(0)) == 0
  {
  }

  /** A picture three frames ahead: two repetitions of the last one, and two of its own. */
  lemma {:induction false} Gap(c: Cfg, s: Stream)
    requires Ok(c, s) && c.mode == Cfr && c.dropThreshold == 0.0 && c.dupLimit >= 4.0
    requires s.frameNumber + 4 <= c.maxFrames && !s.lastDropped && forall t :: c.inTime(t)
    ensures var r := Step(c, s, Some(Input(s.syncOpts as real + 3.0, 1.0)));
            && r.syncOpts == s.syncOpts + 4 && r.frameNumber == s.frameNumber + 4 && r.hasLast && !r.lastDropped
            && r.lastNb0 == (2, s.lastNb0.0, s.lastNb0.1) && Surplus(r) == Surplus(s) && Ok(c, r)
  {
    hide EncodeFrom;
    var next := Some(Input(s.syncOpts as real + 3.0, 1.0));
    assert Round(4.0) == 4 && Round(3.0 - 0.6) == 2;
    assert PlanFor(c, s, next) == Plan(4, 2, s.syncOpts);
    var p := Limited(c, s, next);
    assert p == Plan(4, 2, s.syncOpts);
    hide PlanFor;
    var s1 := s.(lastNb0 := (2, s.lastNb0.0, s.lastNb0.1), inputs := s.inputs + 1, dup := s.dup + Extra(s, p));
    assert Step(c, s, next) == EncodeFrom(c, s1, p, true, 0);
    EncodeEffect(c, s1, p, true, 0);
    EncodesAllIff(c, s1, p, true, 0);
  }

  lemma {:induction false} FlushOfTwo(c: Cfg, s: Stream)
    requires Ok(c, s) && c.dupLimit >= 2.0 && s.frameNumber + 2 <= c.maxFrames
    requires s.lastNb0.0 == s.lastNb0.1 == 2 && !s.lastDropped && forall t :: c.inTime(t)
    ensures var r := Step(c, s, None);
            && r.frameNumber <= s.frameNumber + 2 && !r.hasLast && !r.lastDropped
            && r.lastNb0 == (2, 2, 2) && Surplus(r) == Surplus(s) - (if s.hasLast then 0 else 2) && Ok(c, r)
  {
    hide EncodeFrom;
    var p := Limited(c, s, None);
    assert p == Plan(2, 2, s.syncOpts);
    var s1 := s.(lastNb0 := (2, 2, 2), dup := s.dup + 2);
    assert Step(c, s, None) == EncodeFrom(c, s1, p, false, 0);
    EncodeEffect(c, s1, p, false, 0);
    EncodesAllIff(c, s1, p, false, 0);
    if !s.hasLast {
      NoPicture(c, s1, p);
    }
  }

  lemma {:induction false} NoPicture(c: Cfg, s: Stream, p: Plan)
    requires p.nb > 0 && !s.hasLast
    ensures EncodeFrom(c, s, p, false, 0) == s.(cut := s.cut + p.nb)
  {
  }

  lemma {:induction false} RunAppend(c: Cfg, s: Stream, a: seq<Option<Input>>, b: seq<Option<Input>>)
    requires Ok(c, s)
    ensures Run(c, s, a + b) == Run(c, Run(c, s, a), b)
    decreases |a|
  {
    if a == [] {
      assert a + b == b;
    } else {
      StepBalances(c, s, a[0]);
      assert (a + b)[0] == a[0] && (a + b)[1..] == a[1..] + b;
      RunAppend(c, Step(c, s, a[0]), a[1..], b);
    }
  }

  /** A first picture that ends before the output position becomes a pending drop. */
  lemma {:induction false} TooEarly(c: Cfg, s: Stream, ipts: real, duration: real)
    requires Ok(c, s) && c.mode == Cfr && c.dropThreshold == 0.0 && !s.lastDropped && c.dupLimit >= 0.0
    requires ipts + duration < s.syncOpts as real - 1.1
    ensures Step(c, s, Some(Input(ipts, duration)))
         == s.(lastDropped := true, inputs := s.inputs + 1, hasLast := true, lastPic := s.inputs,
               lastNb0 := (0, s.lastNb0.0, s.lastNb0.1))
  {
    var next := Some(Input(ipts, duration));
    assert Limited(c, s, next) == Plan(0, 0, s.syncOpts);
    EncodeNothing(c, s.(lastDropped := true, inputs := s.inputs + 1, lastNb0 := (0, s.lastNb0.0, s.lastNb0.1)),
                  Plan(0, 0, s.syncOpts));
  }

  /** With a drop pending, a picture longer than the duplication limit is dropped on top of it. */
  lemma {:induction false} TooLong(c: Cfg, s: Stream, ipts: real, duration: real)
    requires Ok(c, s) && c.mode == Cfr && c.dropThreshold == 0.0 && s.lastDropped
    requires ipts == s.syncOpts as real && 2.0 <= duration && c.dupLimit + 1.0 < duration
    requires duration + 1.0 <= (c.maxFrames - s.frameNumber) as real
    ensures Step(c, s, Some(Input(ipts, duration)))
         == s.(drop := s.drop + 2, inputs := s.inputs + 1, drift := s.drift + 1,
               lastNb0 := (0, s.lastNb0.0, s.lastNb0.1))
  {
    hide EncodeFrom;
    var next := Some(Input(ipts, duration));
    assert PlanFor(c, s, next) == Plan(Round(duration), 0, s.syncOpts);
    assert Limited(c, s, next) == Plan(Round(duration), 0, s.syncOpts);
  }

  lemma {:induction false} RunTwo(c: Cfg, s: Stream, a: Option<Input>, b: Option<Input>)
    requires Ok(c, s)
    ensures Ok(c, Step(c, s, a)) && Run(c, s, [a, b]) == Step(c, Step(c, s, a), b)
  {
    StepBalances(c, s, a);
    StepBalances(c, Step(c, s, a), b);
    assert [a, b][1..] == [b] && [b][1..] == [];
    assert Run(c, Step(c, s, a), [b]) == Run(c, Step(c, Step(c, s, a), b), []);
  }

  lemma {:induction false} EncodeNothing(c: Cfg, s: Stream, p: Plan)
    requires p.nb == 0
    ensures EncodeFrom(c, s, p, true, 0) == s.(hasLast := true, lastPic := s.inputs - 1)
  {
  }

  // Constant frame rate

  /** In this mode the position only moves with encoded frames. */
  lemma {:induction false} CfrPosition(c: Cfg, s: Stream, next: Option<Input>)
    requires Ok(c, s) && c.mode == Cfr
    ensures var r := Step(c, s, next);
            && s.out <= r.out && r.syncOpts == s.syncOpts + |r.out| - |s.out|
            && forall k :: |s.out| <= k < |r.out| ==> r.out[k].pts == s.syncOpts + (k - |s.out|)
  {
    hide EncodeFrom, Skips, Step;
    var p := Limited(c, s, next);
    assert p.syncOpts == s.syncOpts;
    hide Limited;
    StepUnfold(c, s, next, p);
    if !Skips(c, s, p) {
      EncodeEffect(c, Counted(s, p, next), p, next.Some?, 0);
    }
  }

  /** Output timestamps are consecutive integers from the starting position, over any run. */
  lemma {:induction false} CfrConsecutive(c: Cfg, s: Stream, calls: seq<Option<Input>>)
    requires Ok(c, s) && c.mode == Cfr
    ensures var r := Run(c, s, calls);
            && s.out <= r.out && r.syncOpts == s.syncOpts + |r.out| - |s.out|
            && forall k :: |s.out| <= k < |r.out| ==> r.out[k].pts == s.syncOpts + (k - |s.out|)
    decreases |calls|
  {
    if calls != [] {
      CfrPosition(c, s, calls[0]);
      StepBalances(c, s, calls[0]);
      CfrConsecutive(c, Step(c, s, calls[0]), calls[1..]);
    }
  }

  /** The call was not stopped by the frame limit, the duplication limit or recording time. */
  ghost predicate Unlimited(c: Cfg, s: Stream, p: Input)
    requires Ok(c, s)
  {
    && Limited(c, s, Some(p)).nb == PlanFor(c, s, Some(p)).nb
    && !Skips(c, s, Limited(c, s, Some(p)))
    && InTime(c, Limited(c, s, Some(p)))
  }

  function EndOf(p: Input): real {
    p.ipts + p.duration
  }

  /** How far the end of the picture is ahead of the output position. */
  function Ahead(s: Stream, p: Input): real {
    EndOf(p) - s.syncOpts as real
  }

  /** After each picture the output lags by at most half a frame; when something was encoded it is
      at most 2.1 frames ahead. */
  lemma {:induction false} CfrTracks(c: Cfg, s: Stream, p: Input)
    requires Ok(c, s) && c.mode == Cfr && c.dropThreshold == 0.0 && Unlimited(c, s, p)
    ensures var r := Step(c, s, Some(p));
            && Ahead(r, p) <= 0.5
            && (|r.out| > |s.out| ==> -2.1 <= Ahead(r, p))
            && (|r.out| == |s.out| <==> Ahead(s, p) < -1.1)
            && (-1.1 <= Ahead(s, p) <= 1.1 ==> |r.out| == |s.out| + 1)
            && (Ahead(s, p) > 1.1 ==> -0.5 <= Ahead(r, p))
  {
    LimitedInRange(c, s, Some(p));
    var q := Limited(c, s, Some(p));
    CfrPosition(c, s, Some(p));
    CfrPlan(c, s, p);
    StepGuards(c, s, Some(p));
    hide Limited, PlanFor, EncodeFrom, Step;
    StepUnfold(c, s, Some(p), q);
    EncodeEffect(c, Counted(s, q, Some(p)), q, true, 0);
  }

  lemma {:induction false} CfrPlan(c: Cfg, s: Stream, p: Input)
    requires c.mode == Cfr && c.dropThreshold == 0.0
    ensures var n := PlanFor(c, s, Some(p)).nb;
            && (n == 0 <==> Ahead(s, p) < -1.1) && n >= 0
            && Ahead(s, p) - n as real <= 0.5
            && (n > 0 ==> -2.1 <= Ahead(s, p) - n as real)
            && (-1.1 <= Ahead(s, p) <= 1.1 ==> n == 1)
            && (Ahead(s, p) > 1.1 ==> -0.5 <= Ahead(s, p) - n as real)
  {
    assert (p.ipts - s.syncOpts as real) + p.duration == Ahead(s, p);
  }

  ghost predicate AllUnlimited(c: Cfg, s: Stream, ps: seq<Input>)
    requires Ok(c, s)
    decreases |ps|
  {
    ps == [] ||
    (Unlimited(c, s, ps[0]) && (StepBalances(c, s, Some(ps[0])); AllUnlimited(c, Step(c, s, Some(ps[0])), ps[1..])))
  }

  function Calls(ps: seq<Input>): (r: seq<Option<Input>>)
    ensures |r| == |ps|
  {
    seq(|ps|, i requires 0 <= i < |ps| => Some(ps[i]))
  }

  /** The whole run keeps the rate: output covers the end of the last picture up to half a frame,
      and never runs more than 2.1 frames past the end of some picture. */
  lemma {:induction false} CfrRate(c: Cfg, s: Stream, ps: seq<Input>)
    requires Ok(c, s) && c.mode == Cfr && c.dropThreshold == 0.0 && AllUnlimited(c, s, ps) && ps != []
    ensures var r := Run(c, s, Calls(ps));
            && Ahead(r, ps[|ps| - 1]) <= 0.5
            && (|r.out| > |s.out| ==> exists j :: 0 <= j < |ps| && -2.1 <= Ahead(r, ps[j]))
    decreases |ps|
  {
    hide Unlimited, Step;
    var p := Some(ps[0]);
    StepBalances(c, s, p);
    CfrTracks(c, s, ps[0]);
    var s1 := Step(c, s, p);
    assert Calls(ps)[1..] == Calls(ps[1..]);
    var r := Run(c, s, Calls(ps));
    assert r == Run(c, s1, Calls(ps[1..]));
    if |ps| == 1 {
      assert -2.1 <= Ahead(s1, ps[0]) || |s1.out| <= |s.out|;
    } else {
      CfrRate(c, s1, ps[1..]);
      CfrConsecutive(c, s1, Calls(ps[1..]));
      if |r.out| > |s1.out| {
        var j :| 0 <= j < |ps[1..]| && -2.1 <= Ahead(r, ps[1..][j]);
        assert ps[1..][j] == ps[j + 1];
      } else if |r.out| > |s.out| {
        assert r.syncOpts == s1.syncOpts;
        assert -2.1 <= Ahead(r, ps[0]);
      }
    }
  }

  // Every mode

  /** What an uncut call does with its plan: the frames planned, consecutive from the planned position,
      the last picture first. */
  lemma {:induction false} StepFrames(c: Cfg, s: Stream, next: Option<Input>)
    requires Ok(c, s)
    ensures var r, p := Step(c, s, next), Limited(c, s, next);
            var n := |r.out| - |s.out|;
            && 0 <= n <= p.nb && s.out <= r.out && r.syncOpts == p.syncOpts + n && r.inputs == s.inputs + Bit(next.Some?)
            && (n == p.nb <==> p.nb == 0 || (!Skips(c, s, p) && !CutsShort(c, s, next)))
            && (Skips(c, s, p) ==> n == 0 && r.hasLast == s.hasLast && r.lastPic == s.lastPic && r.lastDropped == s.lastDropped
                                   && r.dup == s.dup && r.drop == s.drop + 1 + Bit(p.nb0 == 0 && s.lastDropped))
            && (!Skips(c, s, p) ==> r.lastDropped == (p.nb == p.nb0 && next.Some?)
                                    && r.drop == s.drop + Bit(p.nb0 == 0 && s.lastDropped))
            && (!Skips(c, s, p) && !CutsShort(c, s, next) ==>
                  r.hasLast == next.Some? && r.lastPic == if next.Some? then s.inputs else s.lastPic)
            && r.lastNb0 == (p.nb0, s.lastNb0.0, s.lastNb0.1)
            && forall k :: |s.out| <= k < |r.out| ==>
                 && r.out[k].pts == p.syncOpts + (k - |s.out|)
                 && (r.out[k].repeat <==> k - |s.out| < p.nb0 && s.hasLast)
                 && r.out[k].pic == if r.out[k].repeat then s.lastPic else s.inputs + Bit(next.Some?) - 1
  {
    hide Limited, EncodeFrom, Skips, Step;
    var p := Limited(c, s, next);
    StepUnfold(c, s, next, p);
    if !Skips(c, s, p) {
      EncodeEffect(c, Counted(s, p, next), p, next.Some?, 0);
      EncodesAllIff(c, Counted(s, p, next), p, next.Some?, 0);
    }
  }

  /** Variable rate: at most one frame. A picture that ends 0.6 or more before the output position is
      not encoded; one that ends more than 0.6 after it is encoded at its own time, or at the output
      position if it starts earlier; others are encoded at the output position. */
  lemma {:induction false} VfrStep(c: Cfg, s: Stream, p: Input) returns (pos: int)
    requires Ok(c, s) && c.mode == Vfr
    ensures var start := if p.ipts >= s.syncOpts as real then p.ipts else s.syncOpts as real;
            if Ahead(s, p) > 0.6 then -0.5 <= pos as real - start <= 0.5 && pos >= s.syncOpts else pos == s.syncOpts
    ensures var r := Step(c, s, Some(p));
            var encodes := Ahead(s, p) > -0.6 && s.frameNumber < c.maxFrames && c.inTime(pos);
            && r.out == (if encodes then s.out + [Encoded(pos, false, s.inputs)] else s.out)
            && r.syncOpts == pos + Bit(encodes)
  {
    var next := Some(p);
    pos := Limited(c, s, next).syncOpts;
    assert (p.ipts - s.syncOpts as real) + p.duration == Ahead(s, p);
    StepFrames(c, s, next);
    assert Limited(c, s, next) == Plan(if Ahead(s, p) > -0.6 && s.frameNumber < c.maxFrames then 1 else 0, 0, pos);
    assert !Skips(c, s, Limited(c, s, next));
    hide Step, Limited, Skips;
    SingleFrame(c, s, next, pos);
  }

  /** With at most one frame planned and no repetition, the step encodes it if it is in time. */
  lemma {:induction false} SingleFrame(c: Cfg, s: Stream, next: Option<Input>, pos: int)
    requires Ok(c, s) && next.Some? && Limited(c, s, next).nb0 == 0 && Limited(c, s, next).nb <= 1
    requires Limited(c, s, next).syncOpts == pos && !Skips(c, s, Limited(c, s, next))
    ensures var encodes := Limited(c, s, next).nb == 1 && c.inTime(pos);
            && Step(c, s, next).out == (if encodes then s.out + [Encoded(pos, false, s.inputs)] else s.out)
            && Step(c, s, next).syncOpts == pos + Bit(encodes)
  {
    hide Step, Limited, Skips;
    StepFrames(c, s, next);
    var r := Step(c, s, next);
    LimitedInRange(c, s, next);
    if Limited(c, s, next).nb == 1 && c.inTime(pos) {
      assert r.out[|s.out|] == Encoded(pos, false, s.inputs);
    }
  }

  /** Timestamps passed through: one frame for each picture, at its own time. */
  lemma {:induction false} PassthroughStep(c: Cfg, s: Stream, p: Input) returns (pos: int)
    requires Ok(c, s) && (c.mode == Passthrough || c.mode == Drop)
    ensures -0.5 <= pos as real - p.ipts <= 0.5
    ensures var r := Step(c, s, Some(p));
            var encodes := s.frameNumber < c.maxFrames && c.inTime(pos);
            && r.out == (if encodes then s.out + [Encoded(pos, false, s.inputs)] else s.out)
            && r.syncOpts == pos + Bit(encodes)
  {
    var next := Some(p);
    pos := Round(p.ipts);
    assert Limited(c, s, next) == Plan(if s.frameNumber < c.maxFrames then 1 else 0, 0, pos);
    SingleFrame(c, s, next, pos);
  }

  /** The encode loop looks at no part of the configuration but recording time. */
  lemma {:induction false} EncodeFromCfg(c: Cfg, c': Cfg, s: Stream, p: Plan, hasNext: bool, i: nat)
    requires i <= p.nb && c.inTime == c'.inTime
    ensures EncodeFrom(c, s, p, hasNext, i) == EncodeFrom(c', s, p, hasNext, i)
    decreases p.nb - i
  {
    if i < p.nb {
      EncodeFromCfg(c, c', WithFrame(s, i < p.nb0 && s.hasLast), p, hasNext, i + 1);
    }
  }

  /** Calls with the same plan do the same. */
  lemma {:induction false} SamePlan(c: Cfg, s: Stream, next: Option<Input>, c': Cfg, s': Stream, next': Option<Input>)
    requires Ok(c, s) && c.inTime == c'.inTime && c.maxFrames == c'.maxFrames && c.dupLimit == c'.dupLimit
    requires s' == s.(syncOpts := s'.syncOpts) && next.Some? == next'.Some? && PlanFor(c, s, next) == PlanFor(c', s', next')
    ensures Ok(c', s') && Step(c, s, next) == Step(c', s', next')
  {
    hide PlanFor, EncodeFrom, Step;
    var p := Limited(c, s, next);
    assert p == Limited(c', s', next');
    hide Limited;
    StepUnfold(c, s, next, p);
    StepUnfold(c', s', next', p);
    if !Skips(c, s, p) {
      EncodeFromCfg(c, c', Counted(s, p, next), p, next.Some?, 0);
    }
  }

  /** Variable start: a first picture half a frame or more after the output position moves it to the
      picture's own time; apart from that it is constant rate. */
  lemma {:induction false} VscfrIsCfr(c: Cfg, s: Stream, p: Input) returns (pos: int)
    requires Ok(c, s) && c.mode == Vscfr
    ensures if s.frameNumber == 0 && p.ipts - s.syncOpts as real >= 0.5 then -0.5 <= pos as real - p.ipts <= 0.5
            else pos == s.syncOpts
    ensures Step(c, s, Some(p)) ==
            Step(c.(mode := Cfr), s.(syncOpts := pos),
                 Some(if s.frameNumber == 0 && p.ipts - s.syncOpts as real >= 0.5 then Input(pos as real, p.duration) else p))
  {
    var c' := c.(mode := Cfr);
    if s.frameNumber == 0 && p.ipts - s.syncOpts as real >= 0.5 {
      pos := Round(p.ipts);
      var p' := Input(pos as real, p.duration);
      assert PlanFor(c', s.(syncOpts := pos), Some(p')) == PlanCfr(c, s, 0.0, p.duration, pos);
      assert PlanFor(c, s, Some(p)) == PlanCfr(c, s, 0.0, p.duration, pos);
      SamePlan(c, s, Some(p), c', s.(syncOpts := pos), Some(p'));
    } else {
      pos := s.syncOpts;
      SamePlan(c, s, Some(p), c', s, Some(p));
    }
  }

  /** A drop threshold only discards pictures that end too far behind it, never the first frame. */
  lemma {:induction false} ThresholdMeaning(c: Cfg, s: Stream, p: Input)
    requires Ok(c, s) && c.mode == Cfr && c.dropThreshold != 0.0
    ensures if Ahead(s, p) < c.dropThreshold && s.frameNumber != 0
            then var r := Step(c, s, Some(p));
                 r.out == s.out && r.syncOpts == s.syncOpts && r.lastDropped
            else Step(c, s, Some(p)) == Step(c.(dropThreshold := 0.0), s, Some(p))
  {
    assert (p.ipts - s.syncOpts as real) + p.duration == Ahead(s, p);
    if Ahead(s, p) < c.dropThreshold && s.frameNumber != 0 {
      assert Limited(c, s, Some(p)) == Plan(0, 0, s.syncOpts);
      StepFrames(c, s, Some(p));
    } else {
      SamePlan(c, s, Some(p), c.(dropThreshold := 0.0), s, Some(p));
    }
  }

  /** Which frames of a constant-rate call show the last picture: those before a position between 1.1
      and 0.1 before the new picture, when that starts more than 1.1 ahead; otherwise none. */
  lemma {:induction false} CfrSplit(c: Cfg, s: Stream, p: Input) returns (first: int)
    requires Ok(c, s) && c.mode == Cfr && c.dropThreshold == 0.0 && Unlimited(c, s, p)
    ensures var r := Step(c, s, Some(p));
            && s.syncOpts <= first <= r.syncOpts
            && (forall k :: |s.out| <= k < |r.out| ==> (r.out[k].repeat <==> s.hasLast && r.out[k].pts < first))
            && (if p.ipts - s.syncOpts as real > 1.1 && Ahead(s, p) > 1.1
                then first as real <= p.ipts - 0.1 && (first < r.syncOpts ==> p.ipts - 1.1 <= first as real)
                else first == s.syncOpts)
  {
    var next := Some(p);
    assert (p.ipts - s.syncOpts as real) + p.duration == Ahead(s, p);
    LimitedInRange(c, s, next);
    StepFrames(c, s, next);
    first := s.syncOpts + Limited(c, s, next).nb0;
    hide Step, Skips;
  }

  /** The call remembers how often it repeats the last picture, and the two calls before it. */
  lemma {:induction false} RepeatsRemembered(c: Cfg, s: Stream, next: Option<Input>)
    requires Ok(c, s) && s.hasLast && !Skips(c, s, Limited(c, s, next)) && !CutsShort(c, s, next)
    ensures var r := Step(c, s, next);
            && r.lastNb0.1 == s.lastNb0.0 && r.lastNb0.2 == s.lastNb0.1 && 0 <= r.lastNb0.0 <= |r.out| - |s.out|
            && forall k :: |s.out| <= k < |r.out| ==> (r.out[k].repeat <==> k - |s.out| < r.lastNb0.0)
  {
    hide Step, Skips, CutsShort;
    LimitedInRange(c, s, next);
    StepFrames(c, s, next);
  }

  /** With a frame limit a call encodes the first frames of what it would encode without. */
  lemma {:induction false} LimitTakesFirst(c: Cfg, s: Stream, next: Option<Input>, maxFrames: nat)
    requires Ok(c, s) && c.maxFrames <= maxFrames
    requires var c' := c.(maxFrames := maxFrames);
             && !Skips(c, s, Limited(c, s, next)) && !Skips(c', s, Limited(c', s, next))
             && !CutsShort(c, s, next) && !CutsShort(c', s, next)
    ensures var r, r' := Step(c, s, next), Step(c.(maxFrames := maxFrames), s, next);
            && r.out <= r'.out && r.frameNumber <= c.maxFrames
            && (|r.out| < |r'.out| ==> |r.out| - |s.out| == c.maxFrames - s.frameNumber)
  {
    var c' := c.(maxFrames := maxFrames);
    hide Step, Skips, CutsShort;
    LimitedInRange(c, s, next);
    LimitedInRange(c', s, next);
    StepFrames(c, s, next);
    StepFrames(c', s, next);
    StepBalances(c, s, next);
    SamePlanFor(c, c', s, next);
    hide PlanFor;
    var r, r' := Step(c, s, next), Step(c', s, next);
    forall k | 0 <= k < |r.out| ensures r.out[k] == r'.out[k] {
      assert k < |s.out| ==> r.out[k] == s.out[k] && r'.out[k] == s.out[k];
    }
  }

  lemma {:induction false} SamePlanFor(c: Cfg, c': Cfg, s: Stream, next: Option<Input>)
    requires c' == c.(maxFrames := c'.maxFrames)
    ensures PlanFor(c, s, next) == PlanFor(c', s, next)
  {
  }

  predicate IsMedian(m: int, a: int, b: int, c: int) {
    && m in {a, b, c}
    && (m >= a || m >= b) && (m >= a || m >= c) && (m >= b || m >= c)
    && (m <= a || m <= b) && (m <= a || m <= c) && (m <= b || m <= c)
  }

  /** A flush repeats the last picture the median number of times of the last three calls, within the
      frame limit. */
  lemma {:induction false} FlushMeaning(c: Cfg, s: Stream)
    requires Ok(c, s) && !Skips(c, s, Limited(c, s, None)) && !CutsShort(c, s, None)
    ensures var r := Step(c, s, None);
            var n := |r.out| - |s.out|;
            && (exists m :: IsMedian(m, s.lastNb0.0, s.lastNb0.1, s.lastNb0.2)
                  && n == if m <= c.maxFrames - s.frameNumber then m else c.maxFrames - s.frameNumber)
            && (forall k :: |s.out| <= k < |r.out| ==> r.out[k].repeat && r.out[k].pic == s.lastPic)
            && r.syncOpts == s.syncOpts + n && !r.hasLast && !r.lastDropped
  {
    hide Step, Skips;
    LimitedInRange(c, s, None);
    StepFrames(c, s, None);
    assert IsMedian(MidPred(s.lastNb0.0, s.lastNb0.1, s.lastNb0.2), s.lastNb0.0, s.lastNb0.1, s.lastNb0.2);
  }

  /** One call never encodes more than the duplication limit, unless it is a single showing of the last
      picture, the new one, or both; a skipped constant-rate call was that far ahead. */
  lemma {:induction false} LongGaps(c: Cfg, s: Stream, next: Option<Input>)
    requires Ok(c, s)
    ensures |Step(c, s, next).out| - |s.out| <= 2 || (|Step(c, s, next).out| - |s.out|) as real <= c.dupLimit
    ensures c.mode == Cfr && c.dupLimit >= 1.0 && next.Some? && Skips(c, s, Limited(c, s, next)) ==>
              Ahead(s, next.value) > c.dupLimit - 0.5
  {
    StepFrames(c, s, next);
    LimitedInRange(c, s, next);
    if c.mode == Cfr && next.Some? {
      var p := next.value;
      assert (p.ipts - s.syncOpts as real) + p.duration == Ahead(s, p);
    }
    hide Step;
  }

  /** Timestamps so far rise, and are below the output position. */
  ghost predicate Risen(s: Stream) {
    && (forall i, j :: 0 <= i < j < |s.out| ==> s.out[i].pts < s.out[j].pts)
    && forall i :: 0 <= i < |s.out| ==> s.out[i].pts < s.syncOpts
  }

  lemma {:induction false} PositionNeverFalls(c: Cfg, s: Stream, next: Option<Input>)
    requires Ok(c, s) && c.mode != Passthrough && c.mode != Drop
    ensures Limited(c, s, next).syncOpts >= s.syncOpts
  {
  }

  /** Over any run in the other modes the encoder gets strictly increasing timestamps. */
  lemma {:induction false} TimestampsRise(c: Cfg, s: Stream, calls: seq<Option<Input>>)
    requires Ok(c, s) && c.mode != Passthrough && c.mode != Drop && Risen(s)
    ensures Risen(Run(c, s, calls))
    decreases |calls|
  {
    hide Step;
    if calls != [] {
      StepBalances(c, s, calls[0]);
      StepFrames(c, s, calls[0]);
      PositionNeverFalls(c, s, calls[0]);
      hide Limited;
      assert Risen(Step(c, s, calls[0]));
      TimestampsRise(c, Step(c, s, calls[0]), calls[1..]);
    }
  }

  // Which pictures were never shown

  ghost predicate Seen(out: seq<Encoded>, pic: int) {
    exists k :: 0 <= k < |out| && out[k].pic == pic
  }

  /** How many of the first n pictures no encoded frame shows. */
  ghost function UnseenBelow(out: seq<Encoded>, n: nat): nat {
    if n == 0 then 0 else UnseenBelow(out, n - 1) + if Seen(out, n - 1) then 0 else 1
  }

  /** How many of the pictures offered were never shown. */
  ghost function Unseen(s: Stream): nat {
    UnseenBelow(s.out, s.inputs)
  }

  /** The drops that will be reported are the pictures never shown; a pending drop is the last picture,
      not shown yet. */
  ghost predicate DropsRight(s: Stream) {
    && Unseen(s) == ReportedDrops(s)
    && (s.hasLast ==> 0 <= s.lastPic < s.inputs && (s.lastDropped <==> !Seen(s.out, s.lastPic)))
    && (s.lastDropped ==> s.hasLast)
    && forall k :: 0 <= k < |s.out| ==> 0 <= s.out[k].pic < s.inputs
  }

  /** Without a last picture the new one takes its place, but is remembered as dropped. */
  predicate Mislabels(c: Cfg, s: Stream, next: Option<Input>) {
    var p := Limited(c, s, next);
    !Skips(c, s, p) && next.Some? && !s.hasLast && p.nb == p.nb0 && p.nb > 0
  }

  /** The last picture is repeated in this call. */
  predicate Repeats(c: Cfg, s: Stream, next: Option<Input>) {
    !Skips(c, s, Limited(c, s, next)) && Limited(c, s, next).nb0 > 0 && s.hasLast
  }

  /** The new picture is shown in this call. */
  predicate ShowsNew(c: Cfg, s: Stream, next: Option<Input>) {
    var p := Limited(c, s, next);
    !Skips(c, s, p) && next.Some? && p.nb > if s.hasLast then p.nb0 else 0
  }

  /** Which pictures a call shows. */
  lemma {:induction false} SeenAfter(c: Cfg, s: Stream, next: Option<Input>, pic: int)
    requires Ok(c, s) && DropsRight(s) && !CutsShort(c, s, next) && 0 <= pic <= s.inputs
    ensures Seen(Step(c, s, next).out, pic) <==>
              Seen(s.out, pic) || (Repeats(c, s, next) && pic == s.lastPic) || (ShowsNew(c, s, next) && pic == s.inputs)
  {
    hide Step, Limited, Skips, Unseen;
    LimitedInRange(c, s, next);
    StepFrames(c, s, next);
    var r := Step(c, s, next);
    assert forall k :: 0 <= k < |s.out| ==> r.out[k] == s.out[k];
    if Seen(s.out, pic) {
      var k :| 0 <= k < |s.out| && s.out[k].pic == pic;
      assert r.out[k].pic == pic;
    } else if Repeats(c, s, next) && pic == s.lastPic {
      assert r.out[|s.out|].pic == pic;
    } else if ShowsNew(c, s, next) && pic == s.inputs {
      assert r.out[|r.out| - 1].pic == pic;
    }
  }

  lemma {:induction false} RangeAfter(c: Cfg, s: Stream, next: Option<Input>)
    requires Ok(c, s) && DropsRight(s) && !CutsShort(c, s, next)
    ensures var r := Step(c, s, next);
            forall k :: 0 <= k < |r.out| ==> 0 <= r.out[k].pic < r.inputs
  {
    hide Step, Limited, Skips, Unseen;
    LimitedInRange(c, s, next);
    StepFrames(c, s, next);
    var r := Step(c, s, next);
    forall k | 0 <= k < |r.out| ensures 0 <= r.out[k].pic < r.inputs {
      assert k < |s.out| ==> r.out[k] == s.out[k];
    }
  }

  lemma {:induction false} UnseenAfter(c: Cfg, s: Stream, next: Option<Input>)
    requires Ok(c, s) && DropsRight(s) && !CutsShort(c, s, next)
    ensures Unseen(Step(c, s, next)) == Unseen(s) - Bit(Repeats(c, s, next) && s.lastDropped)
                                                      + Bit(next.Some? && !ShowsNew(c, s, next))
  {
    hide Step, Limited, Skips, CutsShort, Seen, Repeats, ShowsNew, DropsRight, Unseen;
    StepFrames(c, s, next);
    var r := Step(c, s, next);
    forall j | 0 <= j <= s.inputs
      ensures Seen(r.out, j) <==>
                Seen(s.out, j) || (Repeats(c, s, next) && j == s.lastPic) || (ShowsNew(c, s, next) && j == s.inputs)
    {
      SeenAfter(c, s, next, j);
    }
    RepeatsHasLast(c, s, next);
    UnseenChanges(s, r, Repeats(c, s, next), next.Some?, ShowsNew(c, s, next));
  }

  lemma {:induction false} UnseenChanges(s: Stream, r: Stream, repeats: bool, offers: bool, shows: bool)
    requires DropsRight(s) && r.inputs == s.inputs + Bit(offers) && (repeats ==> s.hasLast) && (shows ==> offers)
    requires forall j :: 0 <= j <= s.inputs ==>
               (Seen(r.out, j) <==> Seen(s.out, j) || (repeats && j == s.lastPic) || (shows && j == s.inputs))
    ensures Unseen(r) == Unseen(s) - Bit(repeats && s.lastDropped) + Bit(offers && !shows)
  {
    NewIsUnseen(s);
    hide Seen;
    UnseenBelowChanges(s.out, r.out, s.inputs, repeats, s.lastPic);
    assert offers ==> UnseenBelow(r.out, r.inputs) == UnseenBelow(r.out, s.inputs) + Bit(!shows);
  }

  /** Showing one more picture lowers the count if it is among those counted and was not shown before. */
  lemma {:induction false} UnseenBelowChanges(out: seq<Encoded>, out': seq<Encoded>, n: nat, repeats: bool, pic: int)
    requires forall j :: 0 <= j < n ==> (Seen(out', j) <==> Seen(out, j) || (repeats && j == pic))
    ensures UnseenBelow(out', n) == UnseenBelow(out, n) - Bit(repeats && 0 <= pic < n && !Seen(out, pic))
  {
    hide Seen;
    if n > 0 {
      UnseenBelowChanges(out, out', n - 1, repeats, pic);
    }
  }

  lemma {:induction false} RepeatsHasLast(c: Cfg, s: Stream, next: Option<Input>)
    ensures Repeats(c, s, next) ==> s.hasLast
    ensures ShowsNew(c, s, next) ==> next.Some?
  {
  }

  /** Where the drops are right, an uncut call keeps them right exactly when it neither miscounts nor
      mislabels. */
  lemma {:induction false} DropsRightIff(c: Cfg, s: Stream, next: Option<Input>)
    requires Ok(c, s) && DropsRight(s) && !CutsShort(c, s, next)
    ensures DropsRight(Step(c, s, next)) <==> !Miscounts(c, s, next) && !Mislabels(c, s, next)
  {
    hide Step, Limited, Skips, Seen, Unseen;
    LimitedInRange(c, s, next);
    StepFrames(c, s, next);
    RangeAfter(c, s, next);
    UnseenAfter(c, s, next);
    NewIsUnseen(s);
    SeenAfter(c, s, next, s.inputs);
    if s.hasLast {
      SeenAfter(c, s, next, s.lastPic);
    }
  }

  lemma {:induction false} NewIsUnseen(s: Stream)
    requires DropsRight(s)
    ensures !Seen(s.out, s.inputs)
  {
  }

  ghost predicate LabelsRight(c: Cfg, s: Stream, calls: seq<Option<Input>>)
    requires Ok(c, s)
    decreases |calls|
  {
    calls == [] ||
    (!Mislabels(c, s, calls[0]) && (StepBalances(c, s, calls[0]); LabelsRight(c, Step(c, s, calls[0]), calls[1..])))
  }

  lemma {:induction false} RunDropsRight(c: Cfg, s: Stream, calls: seq<Option<Input>>)
    requires Ok(c, s) && DropsRight(s) && ExactCalls(c, s, calls) && LabelsRight(c, s, calls)
    ensures DropsRight(Run(c, s, calls))
    decreases |calls|
  {
    hide Step, DropsRight, Miscounts, Mislabels, CutsShort;
    if calls != [] {
      StepBalances(c, s, calls[0]);
      DropsRightIff(c, s, calls[0]);
      RunDropsRight(c, Step(c, s, calls[0]), calls[1..]);
    }
  }

  /** In the runs that Conservation is about, if moreover no first picture is mislabelled: the reported
      drops are the number of pictures that were never shown, and the duplicates the number of frames
      beyond the first of each picture shown. */
  lemma {:induction false} CountersMeanPictures(c: Cfg, sync0: int, calls: seq<Option<Input>>)
    requires Smooth(c, Start(sync0), calls) && Flushes(calls) <= 1 && LabelsRight(c, Start(sync0), calls)
    ensures var r := Run(c, Start(sync0), calls);
            ReportedDrops(r) == Unseen(r) && r.dup == |r.out| - (r.inputs - Unseen(r))
  {
    var s := Start(sync0);
    assert Unseen(s) == 0;
    hide Smooth, ExactCalls, LabelsRight, Run, Unseen;
    SmoothIsExact(c, s, calls);
    RunDropsRight(c, s, calls);
    Conservation(c, sync0, calls);
  }

  /** A mislabelled picture is reported as dropped although it was shown. */
  lemma {:induction false} MislabelEffect(c: Cfg, s: Stream, next: Option<Input>)
    requires Ok(c, s) && DropsRight(s) && !CutsShort(c, s, next) && Mislabels(c, s, next)
    ensures var r := Step(c, s, next);
            ReportedDrops(r) == Unseen(r) + 1 && Seen(r.out, s.inputs)
  {
    hide Step, Limited, Skips, CutsShort, Seen, Unseen;
    StepFrames(c, s, next);
    UnseenAfter(c, s, next);
    SeenAfter(c, s, next, s.inputs);
  }

  /** A first picture that starts late and is shorter than a frame is encoded, but reported as dropped. */
  lemma {:induction false} MislabelHappens()
    ensures var c := Cfg(Cfr, 1000, 0.0, 10.0, t => true);
            var r := Run(c, Start(0), [Some(Input(3.3, 0.1))]);
            ReportedDrops(r) == Unseen(r) + 1
  {
    var c := Cfg(Cfr, 1000, 0.0, 10.0, t => true);
    hide Step, Run, Limited, DropsRight, Mislabels, CutsShort, Skips;
    RunOne(c, Start(0), Some(Input(3.3, 0.1)));
    StartDropsRight(0);
    LateFirst(c, Start(0), Input(3.3, 0.1));
    MislabelEffect(c, Start(0), Some(Input(3.3, 0.1)));
  }

  lemma {:induction false} StartDropsRight(sync0: int)
    ensures DropsRight(Start(sync0)) && Ok(Cfg(Cfr, 1000, 0.0, 10.0, t => true), Start(sync0))
  {
  }

  lemma {:induction false} LateFirst(c: Cfg, s: Stream, p: Input)
    requires Ok(c, s) && c.mode == Cfr && c.dropThreshold == 0.0 && c.dupLimit >= 3.0 && !s.hasLast
    requires s.frameNumber + 3 <= c.maxFrames && forall t :: c.inTime(t)
    requires 3.1 < p.ipts - s.syncOpts as real < 3.4 && p.duration == 0.1
    ensures Mislabels(c, s, Some(p)) && !CutsShort(c, s, Some(p))
  {
    var d := p.ipts - s.syncOpts as real;
    assert Round(d + 0.1) == 3 && Round(d - 0.6) == 3;
    assert PlanFor(c, s, Some(p)) == Plan(3, 3, s.syncOpts);
  }

  // The object

  class OutputStream {
    const cfg: Cfg
    var syncOpts: int
    var frameNumber: nat
    var lastNb0: array<int>
    var lastDropped: bool
    var hasLast: bool
    var dup: int
    var drop: int
    ghost var out: seq<Encoded>
    ghost var inputs: nat
    ghost var lastPic: int
    ghost var cut: nat
    ghost var drift: nat

    ghost predicate Valid()
      reads this, lastNb0
    {
      lastNb0.Length == 3 && Ok(cfg, State())
    }

    ghost function State(): Stream
      requires lastNb0.Length == 3
      reads this, lastNb0
    {
      Stream(syncOpts, frameNumber, (lastNb0[0], lastNb0[1], lastNb0[2]), lastDropped, hasLast, dup, drop, out,
             inputs, lastPic, cut, drift)
    }

    constructor (cfg: Cfg, syncOpts: int)
      ensures Valid() && this.cfg == cfg && State() == Start(syncOpts) && fresh(lastNb0)
    {
      this.cfg, this.syncOpts := cfg, syncOpts;
      frameNumber, lastDropped, hasLast, dup, drop, out := 0, false, false, 0, 0, [];
      inputs, lastPic, cut, drift := 0, -1, 0, 0;
      lastNb0 := new int[3](i => 0);
    }

    /** Frame counts for a new picture; may move the output position. */
    method Decide(p: Input) returns (nb: int, nb0: int)
      requires lastNb0.Length == 3
      modifies this`syncOpts
      ensures Plan(nb, nb0, syncOpts) == PlanInput(cfg, old(State()), p)
    {
      var ipts := p.ipts;
      var delta0 := ipts - syncOpts as real;
      var delta := delta0 + p.duration;
      nb0, nb := 0, 1;
      if delta0 < 0.0 && delta > 0.0 && cfg.mode != Passthrough && cfg.mode != Drop {
        ipts := syncOpts as real;
        delta0 := 0.0;
      }
      match cfg.mode {
        case Vscfr =>
          if frameNumber == 0 && delta0 >= 0.5 {
            delta := p.duration;
            delta0 := 0.0;
            syncOpts := Round(ipts);
          }
          nb, nb0 := CountCfr(delta0, delta);
        case Cfr =>
          nb, nb0 := CountCfr(delta0, delta);
        case Vfr =>
          if delta <= -0.6 {
            nb := 0;
          } else if delta > 0.6 {
            syncOpts := Round(ipts);
          }
        case _ =>
          syncOpts := Round(ipts);
      }
    }

    method CountCfr(delta0: real, delta: real) returns (nb: int, nb0: int)
      requires lastNb0.Length == 3
      ensures Plan(nb, nb0, syncOpts) == PlanCfr(cfg, State(), delta0, delta, syncOpts)
    {
      nb0, nb := 0, 1;
      if cfg.dropThreshold != 0.0 && delta < cfg.dropThreshold && frameNumber != 0 {
        nb := 0;
      } else if delta < -1.1 {
        nb := 0;
      } else if delta > 1.1 {
        nb := Round(delta);
        if delta0 > 1.1 {
          nb0 := Round(delta0 - 0.6);
        }
      }
    }

    /** Frame counts of this call within the frame limit. */
    method Counts(next: Option<Input>) returns (nb: int, nb0: int)
      requires Valid()
      modifies this`syncOpts
      ensures Plan(nb, nb0, syncOpts) == Limited(cfg, old(State()), next)
    {
      hide PlanInput;
      if next.None? {
        nb := MidPred(lastNb0[0], lastNb0[1], lastNb0[2]);
        nb0 := nb;
      } else {
        nb, nb0 := Decide(next.value);
      }
      nb := Min(nb, cfg.maxFrames - frameNumber);
      nb0 := Min(nb0, nb);
    }

    method DoVideoOut(next: Option<Input>)
      requires Valid()
      modifies this, lastNb0
      ensures Valid() && State() == Step(cfg, old(State()), next)
      ensures lastNb0 == old(lastNb0)
    {
      hide EncodeFrom, Limited, Balance, Step, Counted, Skipped, Skips;
      StepUnfold(cfg, State(), next, Limited(cfg, State(), next));
      StepBalances(cfg, State(), next);
      var nb, nb0, skipped := Account(next);
      if !skipped {
        EncodeAll(nb, nb0, next.Some?, Plan(nb, nb0, syncOpts));
      }
    }

    /** Everything up to the encode loop. */
    method Account(next: Option<Input>) returns (nb: int, nb0: int, skipped: bool)
      requires Valid()
      modifies this`syncOpts, this`inputs, this`dup, this`drop, this`lastDropped, this`drift, lastNb0
      ensures var s, p := old(State()), Plan(nb, nb0, syncOpts);
              && p == Limited(cfg, s, next) && skipped == Skips(cfg, s, p)
              && State() == if skipped then Skipped(s, p, next) else Counted(s, p, next)
    {
      hide EncodeFrom, Limited, Step;
      StepUnfold(cfg, State(), next, Limited(cfg, State(), next));
      nb, nb0 := Counts(next);
      if next.Some? {
        inputs := inputs + 1;
      }
      Remember(nb0);
      skipped := CountFrames(nb, nb0, next.Some?);
    }

    method Remember(nb0: int)
      requires lastNb0.Length == 3
      modifies lastNb0
      ensures State() == old(State()).(lastNb0 := (nb0, old(lastNb0[0]), old(lastNb0[1])))
    {
      lastNb0[2] := lastNb0[1];
      lastNb0[1] := lastNb0[0];
      lastNb0[0] := nb0;
    }

    /** Duplicate and drop counters; skipped when too many frames would be duplicated. */
    method CountFrames(nb: int, nb0: int, hasNext: bool) returns (skipped: bool)
      requires lastNb0.Length == 3 && Extra(State(), Plan(nb, nb0, syncOpts)) >= 0
      modifies this`dup, this`drop, this`lastDropped, this`drift
      ensures var s, p := old(State()), Plan(nb, nb0, syncOpts);
              var pending := nb0 == 0 && s.lastDropped;
              skipped == Skips(cfg, s, p)
              && State() == if skipped
                            then s.(drop := s.drop + Bit(pending) + 1, drift := s.drift + Bit(pending) + Bit(!hasNext))
                            else s.(drop := s.drop + Bit(pending), dup := s.dup + Extra(s, p),
                                    lastDropped := nb == nb0 && hasNext)
    {
      if nb0 == 0 && lastDropped {
        drop := drop + 1;
      }
      if nb > Bit(nb0 != 0 && lastDropped) + Bit(nb > nb0) {
        if nb as real > cfg.dupLimit {
          drop := drop + 1;
          drift := drift + Bit(nb0 == 0 && lastDropped) + Bit(!hasNext);
          return true;
        }
        dup := dup + (nb - Bit(nb0 != 0 && lastDropped) - Bit(nb > nb0));
      }
      lastDropped := nb == nb0 && hasNext;
      return false;
    }

    method EncodeAll(nb: nat, nb0: int, hasNext: bool, ghost p: Plan)
      requires lastNb0.Length == 3 && p.nb == nb && p.nb0 == nb0
      modifies this`out, this`syncOpts, this`frameNumber, this`hasLast, this`lastPic, this`cut
      ensures State() == EncodeFrom(cfg, old(State()), p, hasNext, 0)
    {
      var i := 0;
      while i < nb
        invariant 0 <= i <= nb
        invariant EncodeFrom(cfg, State(), p, hasNext, i) == EncodeFrom(cfg, old(State()), p, hasNext, 0)
      {
        var repeat := i < nb0 && hasLast;
        if !repeat && !hasNext {
          cut := cut + (nb - i);
          return;
        }
        if !cfg.inTime(syncOpts) {
          cut := cut + (nb - i);
          return;
        }
        out := out + [Encoded(syncOpts, repeat, if repeat then lastPic else inputs - 1)];
        syncOpts := syncOpts + 1;
        frameNumber := frameNumber + 1;
        i := i + 1;
      }
      hasLast := hasNext;
      if hasNext {
        lastPic := inputs - 1;
      }
    }
  }
}
