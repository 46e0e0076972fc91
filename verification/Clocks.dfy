/** The player's clocks in exact reals: reading, setting, speed adjustment of the external clock,
    and pausing. A clock reading is None where the source has NaN. */
module Clocks {
  import opened Options

  const SPEED_MIN: real := 0.900
  const SPEED_MAX: real := 1.010
  const SPEED_STEP: real := 0.001
  const MIN_FRAMES: int := 2
  const MAX_FRAMES: int := 10

  /** pts, drift: None for NaN. drift is pts minus the time at which it was set. */
  datatype Clock = Clock(pts: Option<real>, drift: Option<real>, lastUpdated: real, speed: real,
                         serial: int, paused: bool)

  function Plus(a: Option<real>, b: real): Option<real> {
    if a.None? then None else Some(a.value + b)
  }

  function Read(c: Clock, queueSerial: int, now: real): Option<real> {
    if queueSerial != c.serial then None
    else if c.paused then c.pts
    else Running(c.drift, c.lastUpdated, c.speed, now)
  }

  function Running(drift: Option<real>, lastUpdated: real, speed: real, now: real): Option<real> {
    Plus(drift, now - (now - lastUpdated) * (1.0 - speed))
  }

  function SetAt(c: Clock, pts: Option<real>, serial: int, time: real): Clock {
    c.(pts := pts, lastUpdated := time, drift := Plus(pts, -time), serial := serial)
  }

  /** Set to what it reads at this instant. */
  function Rebased(c: Clock, queueSerial: int, now: real): Clock {
    SetAt(c, Read(c, queueSerial, now), c.serial, now)
  }

  function WithSpeed(c: Clock, queueSerial: int, speed: real, now: real): Clock {
    Rebased(c, queueSerial, now).(speed := speed)
  }

  /** How full the packet queues are; a missing stream is None. */
  datatype Fill = Fill(video: Option<int>, audio: Option<int>)

  predicate Starving(f: Fill) {
    (f.video.Some? && f.video.value <= MIN_FRAMES) || (f.audio.Some? && f.audio.value <= MIN_FRAMES)
  }

  predicate Plenty(f: Fill) {
    (f.video.None? || f.video.value > MAX_FRAMES) && (f.audio.None? || f.audio.value > MAX_FRAMES)
  }

  function Abs(x: real): real {
    if x < 0.0 then -x else x
  }

  /** The speed check_external_clock_speed chooses, if it sets one. */
  function NextSpeed(f: Fill, speed: real): Option<real> {
    if Starving(f) then
      Some(if SPEED_MIN >= speed - SPEED_STEP then SPEED_MIN else speed - SPEED_STEP)
    else if Plenty(f) then
      Some(if SPEED_MAX <= speed + SPEED_STEP then SPEED_MAX else speed + SPEED_STEP)
    else if speed != 1.0 then
      Some(speed + SPEED_STEP * (1.0 - speed) / Abs(1.0 - speed))
    else None
  }

  function Adjusted(c: Clock, queueSerial: int, f: Fill, now: real): Clock {
    match NextSpeed(f, c.speed)
    case None => c
    case Some(v) => WithSpeed(c, queueSerial, v, now)
  }

  /** What stream_toggle_pause does to the external clock. */
  function Toggled(c: Clock, queueSerial: int, now: real): Clock {
    Rebased(c, queueSerial, now).(paused := !c.paused)
  }

  /** What it does to the video clock. noSuchCall: pausing the input answered ENOSYS. */
  function VideoToggled(c: Clock, queueSerial: int, noSuchCall: bool, now: real): Clock {
    if c.paused then
      var c1 := if noSuchCall then c else c.(paused := false);
      Rebased(c1, queueSerial, now).(paused := false)
    else c.(paused := true)
  }

  // Meaning of a reading

  /** Set to a real value and not to NaN, with the drift set_clock_at stores. */
  ghost predicate Sound(c: Clock) {
    c.pts.Some? && c.drift == Some(c.pts.value - c.lastUpdated)
  }

  /** The piecewise-linear reading. */
  ghost function Line(c: Clock, t: real): real
    requires Sound(c)
  {
    c.pts.value + if c.paused then 0.0 else c.speed * (t - c.lastUpdated)
  }

  lemma {:induction false} OneLess(x: real, k: real)
    ensures x * (1.0 - k) == x - k * x
  {
  }

  lemma {:induction false} RunningValue(pts: real, lastUpdated: real, speed: real, now: real)
    ensures var r := Running(Some(pts - lastUpdated), lastUpdated, speed, now);
            r.Some? && r.value == pts + speed * (now - lastUpdated)
  {
    var x := now - lastUpdated;
    OneLess(x, speed);
    assert pts - lastUpdated + (now - x * (1.0 - speed)) == pts + speed * x;
  }

  /** A running clock reads pts + speed * elapsed; a paused one stands at pts. */
  lemma {:induction false} ReadIsLine(c: Clock, t: real)
    requires Sound(c)
    ensures Read(c, c.serial, t).Some? && Read(c, c.serial, t).value == Line(c, t)
  {
    hide Running;
    if c.paused {
      assert c.pts == Some(c.pts.value);
    } else {
      RunningValue(c.pts.value, c.lastUpdated, c.speed, t);
      assert Line(c, t) == c.pts.value + c.speed * (t - c.lastUpdated);
    }
  }

  /** Setting a clock to its own reading changes no reading at any time. */
  lemma {:induction false} RebaseKeepsLine(c: Clock, now: real, t: real)
    requires Sound(c)
    ensures Sound(Rebased(c, c.serial, now)) && Line(Rebased(c, c.serial, now), t) == Line(c, t)
  {
    ReadIsLine(c, now);
    assert c.speed * (t - c.lastUpdated) == c.speed * (now - c.lastUpdated) + c.speed * (t - now);
  }

  /** The chosen speed stays within the limits. */
  lemma {:induction false} SpeedInRange(f: Fill, speed: real)
    requires SPEED_MIN <= speed <= SPEED_MAX
    ensures NextSpeed(f, speed).Some? ==> SPEED_MIN <= NextSpeed(f, speed).value <= SPEED_MAX
    ensures Starving(f) ==>
              NextSpeed(f, speed) == Some(if speed - 0.001 >= 0.900 then speed - 0.001 else 0.900)
              && NextSpeed(f, speed).value <= speed
    ensures !Starving(f) && Plenty(f) ==>
              NextSpeed(f, speed) == Some(if speed + 0.001 <= 1.010 then speed + 0.001 else 1.010)
              && NextSpeed(f, speed).value >= speed
    ensures !Starving(f) && !Plenty(f) ==> (NextSpeed(f, speed).None? <==> speed == 1.0)
    ensures !Starving(f) && !Plenty(f) && NextSpeed(f, speed).Some? ==>
              Abs(NextSpeed(f, speed).value - speed) == SPEED_STEP
              && (NextSpeed(f, speed).value > speed <==> speed < 1.0)
  {
    if speed < 1.0 {
      Quotient(1.0 - speed, 1.0);
    } else if speed > 1.0 {
      Quotient(1.0 - speed, -1.0);
    }
  }

  /** Whether the queues starve or overflow, by the fill of the streams that exist. */
  lemma {:induction false} FillLevels(f: Fill)
    ensures Starving(f) <==> exists n: int :: n <= 2 && Some(n) in {f.video, f.audio}
    ensures Plenty(f) <==> forall n: int :: Some(n) in {f.video, f.audio} ==> n > 10
  {
    if Starving(f) {
      var n := if f.video.Some? && f.video.value <= 2 then f.video.value else f.audio.value;
      assert Some(n) in {f.video, f.audio};
    }
    assert f.video.Some? ==> Some(f.video.value) in {f.video, f.audio};
    assert f.audio.Some? ==> Some(f.audio.value) in {f.video, f.audio};
  }

  /** A clock reads what it was set to, at that instant and for that serial; for another serial of
      the queue it reads nothing. */
  lemma {:induction false} SetThenRead(c: Clock, pts: Option<real>, serial: int, time: real, queueSerial: int, now: real)
    ensures Read(SetAt(c, pts, serial, time), serial, time) == pts
    ensures queueSerial != serial ==> Read(SetAt(c, pts, serial, time), queueSerial, now).None?
    ensures SetAt(c, pts, serial, time).speed == c.speed && SetAt(c, pts, serial, time).paused == c.paused
  {
    assert (time - time) * (1.0 - c.speed) == 0.0;
  }

  lemma {:induction false} Quotient(d: real, sign: real)
    requires d != 0.0 && sign == (if d > 0.0 then 1.0 else -1.0)
    ensures SPEED_STEP * d / Abs(d) == SPEED_STEP * sign
  {
    assert SPEED_STEP * d == (SPEED_STEP * sign) * Abs(d);
    Cancel(SPEED_STEP * sign, Abs(d));
  }

  lemma {:induction false} Cancel(x: real, a: real)
    requires a != 0.0
    ensures x * a / a == x
  {
  }

  // Runs of the external clock

  datatype Action = Adjust(f: Fill) | Toggle

  datatype Event = Event(at: real, action: Action)

  function Apply(c: Clock, e: Event): Clock {
    match e.action
    case Adjust(f) => Adjusted(c, c.serial, f, e.at)
    case Toggle => Toggled(c, c.serial, e.at)
  }

  ghost predicate Good(c: Clock) {
    Sound(c) && SPEED_MIN <= c.speed <= SPEED_MAX
  }

  /** An event changes the slope but not the value at its instant, so the clock is continuous. */
  lemma {:induction false} ApplyContinuous(c: Clock, e: Event)
    requires Good(c)
    ensures Good(Apply(c, e)) && Line(Apply(c, e), e.at) == Line(c, e.at)
    ensures Apply(c, e).serial == c.serial
    ensures Apply(c, e).lastUpdated == e.at || Apply(c, e) == c
  {
    RebaseKeepsLine(c, e.at, e.at);
    ReadIsLine(c, e.at);
    match e.action
    case Adjust(f) => SpeedInRange(f, c.speed);
    case Toggle =>
  }

  /** Between events the clock never falls, gains at most the top speed, and while it runs at
      least the bottom speed. */
  lemma {:induction false} LineSlope(c: Clock, t1: real, t2: real)
    requires Good(c) && t1 <= t2
    ensures Line(c, t1) <= Line(c, t2) <= Line(c, t1) + SPEED_MAX * (t2 - t1)
    ensures if c.paused then Line(c, t1) == Line(c, t2) else Line(c, t2) >= Line(c, t1) + SPEED_MIN * (t2 - t1)
  {
    if !c.paused {
      Slope(c.speed, c.lastUpdated, t1, t2);
    }
    assert 0.0 <= SPEED_MIN * (t2 - t1) && 0.0 <= SPEED_MAX * (t2 - t1);
  }

  lemma {:induction false} Slope(k: real, from: real, t1: real, t2: real)
    requires SPEED_MIN <= k <= SPEED_MAX && t1 <= t2
    ensures k * (t1 - from) + SPEED_MIN * (t2 - t1) <= k * (t2 - from) <= k * (t1 - from) + SPEED_MAX * (t2 - t1)
  {
    SlopeOf(k, t1 - from, t2 - t1, t2 - from);
  }

  lemma {:induction false} SlopeOf(k: real, a: real, d: real, b: real)
    requires SPEED_MIN <= k <= SPEED_MAX && 0.0 <= d && b == a + d
    ensures k * a + SPEED_MIN * d <= k * b <= k * a + SPEED_MAX * d
  {
    Distribute(k, a, d, b);
    Scaled(SPEED_MIN, k, d);
    Scaled(k, SPEED_MAX, d);
  }

  lemma {:induction false} Distribute(k: real, a: real, d: real, b: real)
    requires b == a + d
    ensures k * b == k * a + k * d
  {
  }

  lemma {:induction false} Scaled(a: real, b: real, d: real)
    requires a <= b && 0.0 <= d
    ensures a * d <= b * d
  {
    assert 0.0 <= (b - a) * d;
    assert (b - a) * d == b * d - a * d;
  }

  /** Events in time order, none before the given time. */
  ghost predicate InOrder(es: seq<Event>, from: real) {
    es == [] || (from <= es[0].at && InOrder(es[1..], es[0].at))
  }

  ghost function ClockAfter(c: Clock, es: seq<Event>): Clock
    decreases |es|
  {
    if es == [] then c else ClockAfter(Apply(c, es[0]), es[1..])
  }

  /** The last event time, or the given time. */
  ghost function LastTime(es: seq<Event>, from: real): real {
    if es == [] then from else LastTime(es[1..], es[0].at)
  }

  /** Over any run of adjustments and pause toggles the external clock reads a defined value that
      never goes backwards and never gains more than the top speed allows. */
  lemma {:induction false} ExternalClockRun(c: Clock, es: seq<Event>, from: real, t: real)
    requires Good(c) && InOrder(es, from) && LastTime(es, from) <= t
    ensures var r := ClockAfter(c, es);
            && Good(r) && r.serial == c.serial
            && Read(c, c.serial, from).Some? && Read(r, c.serial, t).Some?
            && from <= t
            && Read(c, c.serial, from).value <= Read(r, c.serial, t).value
            && Read(r, c.serial, t).value <= Read(c, c.serial, from).value + SPEED_MAX * (t - from)
    decreases |es|
  {
    ReadIsLine(c, from);
    if es == [] {
      ReadIsLine(c, t);
      LineSlope(c, from, t);
    } else {
      var c1 := Apply(c, es[0]);
      ApplyContinuous(c, es[0]);
      ReadIsLine(c1, es[0].at);
      ReadIsLine(c, es[0].at);
      ExternalClockRun(c1, es[1..], es[0].at, t);
      LineSlope(c, from, es[0].at);
      assert SPEED_MAX * (t - from) == SPEED_MAX * (t - es[0].at) + SPEED_MAX * (es[0].at - from);
    }
  }

  /** The video clock, unpaused: it goes on from where it stood exactly when pausing the input is
      not supported, or no time has passed, or its speed is 0; otherwise it jumps by the pause. */
  lemma {:induction false} VideoClockResume(c: Clock, noSuchCall: bool, now: real)
    requires Sound(c) && c.paused
    ensures var r := VideoToggled(c, c.serial, noSuchCall, now);
            && Sound(r) && !r.paused
            && Line(r, now) == c.pts.value + (if noSuchCall then 0.0 else c.speed * (now - c.lastUpdated))
            && (Line(r, now) == Line(c, now) <==> noSuchCall || now == c.lastUpdated || c.speed == 0.0)
  {
    var c1 := if noSuchCall then c else c.(paused := false);
    hide Running;
    ReadIsLine(c1, now);
    RebaseKeepsLine(c1, now, now);
    TimesNothing(c.speed, now - now);
    TimesNothing(c.speed, now - c.lastUpdated);
    if c.speed != 0.0 && now != c.lastUpdated {
      NonZeroProduct(c.speed, now - c.lastUpdated);
    }
  }

  lemma {:induction false} TimesNothing(a: real, b: real)
    ensures a == 0.0 || b == 0.0 ==> a * b == 0.0
  {
  }

  lemma {:induction false} NonZeroProduct(a: real, b: real)
    requires a != 0.0 && b != 0.0
    ensures a * b != 0.0
  {
    if a > 0.0 {
      if b > 0.0 {
        assert a * b > 0.0;
      } else {
        assert a * (-b) > 0.0;
      }
    } else if b > 0.0 {
      assert (-a) * b > 0.0;
    } else {
      assert (-a) * (-b) > 0.0;
    }
  }

  /** Pausing freezes the video clock at its last set value, not at its reading: the two agree
      exactly when no time has passed since it was set, or its speed is 0. */
  lemma {:induction false} VideoClockPause(c: Clock, noSuchCall: bool, now: real)
    requires Sound(c) && !c.paused
    ensures var r := VideoToggled(c, c.serial, noSuchCall, now);
            && Sound(r) && r.paused && Line(r, now) == c.pts.value
            && (Line(r, now) == Line(c, now) <==> now == c.lastUpdated || c.speed == 0.0)
  {
    TimesNothing(c.speed, now - c.lastUpdated);
    if c.speed != 0.0 && now != c.lastUpdated {
      NonZeroProduct(c.speed, now - c.lastUpdated);
    }
  }

  /** A video clock set to 0 at time 0, paused at 5 and resumed at 7: it reads 5 just before the
      pause, 0 during it, and 7 after it. */
  lemma {:induction false} VideoClockJumps()
    ensures var c := SetAt(Clock(None, None, 0.0, 1.0, -1, false), Some(0.0), 0, 0.0);
            var paused := VideoToggled(c, 0, false, 5.0);
            var resumed := VideoToggled(paused, 0, false, 7.0);
            && Read(c, 0, 5.0) == Some(5.0) && Read(paused, 0, 5.0) == Some(0.0)
            && Read(paused, 0, 7.0) == Some(0.0) && Read(resumed, 0, 7.0) == Some(7.0)
  {
  }

  // The objects

  class ClockObject {
    var pts: Option<real>
    var ptsDrift: Option<real>
    var lastUpdated: real
    var speed: real
    var serial: int
    var paused: bool

    ghost function State(): Clock
      reads this
    {
      Clock(pts, ptsDrift, lastUpdated, speed, serial, paused)
    }

    constructor (now: real)
      ensures State() == SetAt(Clock(None, None, now, 1.0, -1, false), None, -1, now)
    {
      pts, ptsDrift, lastUpdated, speed, serial, paused := None, None, now, 1.0, -1, false;
    }

    method GetClock(queueSerial: int, now: real) returns (r: Option<real>)
      ensures r == Read(State(), queueSerial, now)
    {
      hide Running;
      if queueSerial != serial {
        return None;
      }
      if paused {
        return pts;
      }
      r := Running(ptsDrift, lastUpdated, speed, now);
    }

    method SetClockAt(p: Option<real>, s: int, time: real)
      modifies this
      ensures State() == SetAt(old(State()), p, s, time)
    {
      pts := p;
      lastUpdated := time;
      ptsDrift := Plus(pts, -time);
      serial := s;
    }

    method SetClockSpeed(queueSerial: int, v: real, now: real)
      modifies this
      ensures State() == WithSpeed(old(State()), queueSerial, v, now)
    {
      var r := GetClock(queueSerial, now);
      SetClockAt(r, serial, now);
      speed := v;
    }

    method CheckExternalClockSpeed(queueSerial: int, f: Fill, now: real)
      modifies this
      ensures State() == Adjusted(old(State()), queueSerial, f, now)
    {
      if Starving(f) {
        SetClockSpeed(queueSerial, if SPEED_MIN >= speed - SPEED_STEP then SPEED_MIN else speed - SPEED_STEP, now);
      } else if Plenty(f) {
        SetClockSpeed(queueSerial, if SPEED_MAX <= speed + SPEED_STEP then SPEED_MAX else speed + SPEED_STEP, now);
      } else {
        var v := speed;
        if v != 1.0 {
          SetClockSpeed(queueSerial, v + SPEED_STEP * (1.0 - v) / Abs(1.0 - v), now);
        }
      }
    }
  }

  class Player {
    const audio: ClockObject
    const video: ClockObject
    const external: ClockObject
    var paused: bool
    var frameTimer: real

    ghost predicate Valid()
      reads this, audio, video, external
    {
      && audio != video && audio != external && video != external
      && paused == audio.paused == video.paused == external.paused
    }

    constructor (audio: ClockObject, video: ClockObject, external: ClockObject)
      requires audio != video && audio != external && video != external
      requires !audio.paused && !video.paused && !external.paused
      ensures Valid() && !paused && this.audio == audio && this.video == video && this.external == external
    {
      this.audio, this.video, this.external := audio, video, external;
      paused, frameTimer := false, 0.0;
    }

    /** One instant serves for all the clock readings of the call. */
    method StreamTogglePause(videoSerial: int, noSuchCall: bool, now: real)
      requires Valid()
      modifies this, audio, video, external
      ensures Valid() && paused == !old(paused)
      ensures external.State() == Toggled(old(external.State()), old(external.serial), now)
      ensures video.State() == VideoToggled(old(video.State()), videoSerial, noSuchCall, now)
      ensures audio.State() == old(audio.State()).(paused := paused)
      ensures frameTimer == old(frameTimer) + if old(paused) then now - old(video.lastUpdated) else 0.0
    {
      if paused {
        frameTimer := frameTimer + (now - video.lastUpdated);
        if !noSuchCall {
          video.paused := false;
        }
        var v := video.GetClock(videoSerial, now);
        video.SetClockAt(v, video.serial, now);
      }
      var x := external.GetClock(external.serial, now);
      external.SetClockAt(x, external.serial, now);
      paused := !paused;
      audio.paused, video.paused, external.paused := paused, paused, paused;
    }
  }
}
