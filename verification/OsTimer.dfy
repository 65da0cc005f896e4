/** The non-blocking timers: 32-bit arithmetic that wraps, against time that does not. */
module OsTimer {

  const WRAP := 0x1_0000_0000

  type u32 = w: int | 0 <= w < 0x1_0000_0000

  /** The millisecond counter at true time `now`. */
  function Millis(now: nat): u32 { now % WRAP }

  function Plus(a: u32, b: u32): u32 { (a + b) % WRAP }

  function Minus(a: u32, b: u32): u32 { (a - b) % WRAP }

  // ---------- What the code does ----------

  datatype Timer = Timer(tmr: u32, time: u32, freeze: u32, frozen: bool)

  datatype Op = Set(timeout: u32) | Restart | Freeze | Thaw

  function Apply(t: Timer, op: Op, now: nat): Timer {
    match op
    case Set(timeout) => t.(time := timeout, tmr := Millis(now))
    case Restart => t.(tmr := Millis(now))
    case Freeze => t.(freeze := Millis(now), frozen := true)
    case Thaw => if t.frozen then t.(tmr := Plus(t.tmr, Minus(Millis(now), t.freeze))) else t
  }

  predicate Expired(t: Timer, now: nat) { Minus(Millis(now), t.tmr) > t.time }

  function Fresh(timeout: u32, now: nat): Timer { Timer(Millis(now), timeout, 0, false) }

  class OSTimer {
    var tmr: u32
    var time: u32
    var freeze: u32
    var frozen: bool

    function View(): Timer
      reads this
    {
      Timer(tmr, time, freeze, frozen)
    }

    constructor (timeout: u32, now: nat)
      ensures View() == Fresh(timeout, now)
    {
      time, freeze, frozen := timeout, 0, false;
      tmr := Millis(now);
    }

    method SetTimeout(timeout: u32, now: nat)
      modifies this
      ensures View() == Apply(old(View()), Set(timeout), now)
    {
      time := timeout;
      tmr := Millis(now);
    }

    method Restart(now: nat)
      modifies this
      ensures View() == Apply(old(View()), Op.Restart, now)
    {
      tmr := Millis(now);
    }

    method IsExpired(now: nat) returns (expired: bool)
      ensures expired == Expired(View(), now)
    {
      expired := Minus(Millis(now), tmr) > time;
    }

    method Freeze(now: nat)
      modifies this
      ensures View() == Apply(old(View()), Op.Freeze, now)
    {
      freeze := Millis(now);
      frozen := true;
    }

    method Thaw(now: nat)
      modifies this
      ensures View() == Apply(old(View()), Op.Thaw, now)
    {
      tmr := Plus(tmr, if frozen then Minus(Millis(now), freeze) else 0);
    }
  }

  // ---------- What a timer is for: a stopwatch on unbounded time ----------

  /** Started at `start`, paused for `paused` in all since then, and either running or paused
      since `since`. */
  datatype Stopwatch = Stopwatch(start: nat, paused: nat, timeout: u32, running: bool, since: nat)

  function Reading(w: Stopwatch, now: nat): int {
    (if w.running then now else w.since) - w.start - w.paused
  }

  /** Every button works in every state. Set and Restart put the watch to zero, and a paused watch stays
      paused there; a second Freeze, and a Thaw of a running watch, do nothing. */
  function Press(w: Stopwatch, op: Op, now: nat): Stopwatch
    requires w.since <= now
  {
    match op
    case Set(timeout) => w.(start := now, paused := 0, timeout := timeout, since := now)
    case Restart => w.(start := now, paused := 0, since := now)
    case Freeze => if w.running then w.(running := false, since := now) else w
    case Thaw => if w.running then w else w.(running := true, paused := w.paused + (now - w.since), since := now)
  }

  datatype Timed = Timed(at: nat, op: Op)

  function LastTime(t0: nat, h: seq<Timed>): nat {
    if h == [] then t0 else h[|h| - 1].at
  }

  /** Time does not run backwards. */
  predicate Ordered(t0: nat, h: seq<Timed>) {
    h == [] || (Ordered(t0, h[..|h| - 1]) && LastTime(t0, h[..|h| - 1]) <= h[|h| - 1].at)
  }

  function Watch(w: Stopwatch, h: seq<Timed>): (w': Stopwatch)
    requires Ordered(w.since, h)
    ensures w'.since <= LastTime(w.since, h)
  {
    if h == [] then w else Press(Watch(w, h[..|h| - 1]), h[|h| - 1].op, h[|h| - 1].at)
  }

  function Started(timeout: u32, t0: nat): Stopwatch { Stopwatch(t0, 0, timeout, true, t0) }

  function After(t: Timer, h: seq<Timed>): Timer {
    if h == [] then t else Apply(After(t, h[..|h| - 1]), h[|h| - 1].op, h[|h| - 1].at)
  }

  /** The code's 32-bit start mark is the true start shifted by the time spent frozen, and inside a
      freeze its freeze mark is the beginning of the freeze. */
  ghost predicate Tracks(t: Timer, w: Stopwatch) {
    && t.time == w.timeout
    && 0 <= Reading(w, w.since)
    && t.tmr == (w.start + w.paused) % WRAP
    && (!w.running ==> t.frozen && t.freeze == Millis(w.since))
  }

  // ---------- When the code tracks the stopwatch ----------

  /** Bracketed calls are harmless: Set, Restart and Freeze while running, Thaw while paused. So is a Thaw
      of a timer that was never frozen. Any other call is only if the counter shows the freeze mark again. */
  predicate Harmless(t: Timer, running: bool, op: Op, now: nat) {
    || (running <==> !op.Thaw?)
    || (op.Thaw? && !t.frozen)
    || Minus(Millis(now), t.freeze) == 0
  }

  lemma ModDifference(c: nat, b: nat)
    requires b <= c
    ensures Minus(c % WRAP, b % WRAP) == (c - b) % WRAP
  {
  }

  lemma ModSum(a: nat, d: nat)
    ensures Plus(a % WRAP, d % WRAP) == (a + d) % WRAP
  {
  }

  lemma ModShift(a: nat, b: nat, c: nat)
    requires b <= c
    ensures Plus(a % WRAP, Minus(Millis(c), Millis(b))) == (a + (c - b)) % WRAP
  {
    ModDifference(c, b);
    ModSum(a, c - b);
  }

  lemma PlusZero(a: u32, d: u32)
    ensures Plus(a, d) == a <==> d == 0
  {
  }

  lemma MinusZero(a: u32, b: u32)
    ensures Minus(a, b) == 0 <==> a == b
  {
  }

  /** Exactly then, for every timer, watch, call and time: the code goes on tracking the stopwatch if and
      only if the call is harmless. */
  lemma StepTracksIff(t: Timer, w: Stopwatch, op: Op, now: nat)
    requires Tracks(t, w) && w.since <= now
    ensures Tracks(Apply(t, op, now), Press(w, op, now)) <==> Harmless(t, w.running, op, now)
  {
    MinusZero(Millis(now), t.freeze);
    if op.Thaw? {
      ModShift(w.start + w.paused, w.since, now);
      PlusZero(t.tmr, Minus(Millis(now), t.freeze));
      hide Plus, Minus, Millis;
    }
  }

  /** A history all of whose calls are harmless when they come. */
  predicate HarmlessRun(timeout: u32, t0: nat, h: seq<Timed>)
    requires Ordered(t0, h)
  {
    h == [] ||
    (var most, last := h[..|h| - 1], h[|h| - 1];
     && HarmlessRun(timeout, t0, most)
     && Harmless(After(Fresh(timeout, t0), most), Watch(Started(timeout, t0), most).running, last.op, last.at))
  }

  /** The code tracks the stopwatch after every call so far. */
  ghost predicate TracksThroughout(timeout: u32, t0: nat, h: seq<Timed>)
    requires Ordered(t0, h)
  {
    && Tracks(After(Fresh(timeout, t0), h), Watch(Started(timeout, t0), h))
    && (h != [] ==> TracksThroughout(timeout, t0, h[..|h| - 1]))
  }

  /** So the start mark is the last Set or Restart plus all frozen time since, modulo 2^32, all through a
      history if and only if every call of it is harmless. */
  lemma {:induction false} TracksIff(timeout: u32, t0: nat, h: seq<Timed>)
    requires Ordered(t0, h)
    ensures TracksThroughout(timeout, t0, h) <==> HarmlessRun(timeout, t0, h)
    decreases |h|
  {
    hide Tracks, Harmless, Apply, Press;
    if h == [] {
      FreshTracks(timeout, t0);
    } else {
      var most, last := h[..|h| - 1], h[|h| - 1];
      TracksIff(timeout, t0, most);
      if TracksThroughout(timeout, t0, most) {
        StepTracksIff(After(Fresh(timeout, t0), most), Watch(Started(timeout, t0), most), last.op, last.at);
      }
    }
  }

  lemma FreshTracks(timeout: u32, t0: nat)
    ensures Tracks(Fresh(timeout, t0), Started(timeout, t0))
  {
  }

  /** A running timer is not thawed, and a frozen one is only thawed. */
  predicate WellBracketed(timeout: u32, t0: nat, h: seq<Timed>)
    requires Ordered(t0, h)
  {
    h == [] ||
    (var most, last := h[..|h| - 1], h[|h| - 1];
     WellBracketed(timeout, t0, most) && (Watch(Started(timeout, t0), most).running <==> !last.op.Thaw?))
  }

  /** Over any well-bracketed history, in particular, the code tracks the stopwatch. */
  lemma {:induction false} TracksAlways(timeout: u32, t0: nat, h: seq<Timed>)
    requires Ordered(t0, h) && WellBracketed(timeout, t0, h)
    ensures HarmlessRun(timeout, t0, h)
    ensures Tracks(After(Fresh(timeout, t0), h), Watch(Started(timeout, t0), h))
    decreases |h|
  {
    if h != [] {
      TracksAlways(timeout, t0, h[..|h| - 1]);
    }
    TracksIff(timeout, t0, h);
  }

  // ---------- Expiry ----------

  /** Set or Restart of a running watch: from then on the code tracks it again, whatever was done before. */
  predicate Restores(running: bool, op: Op) {
    running && (op.Set? || op.Restart?)
  }

  /** Every call since the last such one, or since the beginning, is harmless. */
  predicate Regular(timeout: u32, t0: nat, h: seq<Timed>)
    requires Ordered(t0, h)
  {
    h == [] ||
    (var most, last := h[..|h| - 1], h[|h| - 1];
     var running := Watch(Started(timeout, t0), most).running;
     || Restores(running, last.op)
     || (Regular(timeout, t0, most) && Harmless(After(Fresh(timeout, t0), most), running, last.op, last.at)))
  }

  lemma StepRestores(t: Timer, w: Stopwatch, op: Op, now: nat)
    requires t.time == w.timeout && w.since <= now && Restores(w.running, op)
    ensures Tracks(Apply(t, op, now), Press(w, op, now))
  {
  }

  lemma {:induction false} SameTimeout(timeout: u32, t0: nat, h: seq<Timed>)
    requires Ordered(t0, h)
    ensures After(Fresh(timeout, t0), h).time == Watch(Started(timeout, t0), h).timeout
    decreases |h|
  {
    if h != [] {
      SameTimeout(timeout, t0, h[..|h| - 1]);
    }
  }

  lemma {:induction false} RegularTracks(timeout: u32, t0: nat, h: seq<Timed>)
    requires Ordered(t0, h) && Regular(timeout, t0, h)
    ensures Tracks(After(Fresh(timeout, t0), h), Watch(Started(timeout, t0), h))
    decreases |h|
  {
    hide Tracks, Harmless, Restores, Apply, Press;
    if h == [] {
      FreshTracks(timeout, t0);
    } else {
      var most, last := h[..|h| - 1], h[|h| - 1];
      var t, w := After(Fresh(timeout, t0), most), Watch(Started(timeout, t0), most);
      SameTimeout(timeout, t0, most);
      if Restores(w.running, last.op) {
        StepRestores(t, w, last.op, last.at);
      } else {
        RegularTracks(timeout, t0, most);
        StepTracksIff(t, w, last.op, last.at);
      }
    }
  }

  /** What `isExpired` answers while the code tracks the watch: it counts frozen time in progress. */
  lemma ExpiredAt(t: Timer, w: Stopwatch, now: nat)
    requires Tracks(t, w) && w.since <= now && now - w.start - w.paused < WRAP
    ensures Expired(t, now) <==> now - w.start - w.paused > w.timeout
  {
    ModDifference(now, w.start + w.paused);
  }

  /** A running timer has expired exactly when the time not spent frozen since the last Set or
      Restart exceeds the timeout, across any number of counter wraps, as long as that time stays
      below 2^32. */
  lemma ExpiredIff(timeout: u32, t0: nat, h: seq<Timed>, now: nat)
    requires Ordered(t0, h) && Regular(timeout, t0, h)
    requires var w := Watch(Started(timeout, t0), h);
             w.since <= now && w.running && Reading(w, now) < WRAP
    ensures var w := Watch(Started(timeout, t0), h);
            Expired(After(Fresh(timeout, t0), h), now) <==> Reading(w, now) > w.timeout
  {
    hide After, Regular, Ordered, Expired, Watch;
    RegularTracks(timeout, t0, h);
    ExpiredAt(After(Fresh(timeout, t0), h), Watch(Started(timeout, t0), h), now);
  }

  /** While frozen the code keeps counting. So the answer is right unless the timeout falls into
      the time the timer has been frozen so far. */
  lemma FrozenExpiredIff(timeout: u32, t0: nat, h: seq<Timed>, now: nat)
    requires Ordered(t0, h) && Regular(timeout, t0, h)
    requires var w := Watch(Started(timeout, t0), h);
             w.since <= now && !w.running && now - w.start - w.paused < WRAP
    ensures var w := Watch(Started(timeout, t0), h);
            (Expired(After(Fresh(timeout, t0), h), now) <==> Reading(w, now) > w.timeout)
            <==> !(Reading(w, now) <= w.timeout < Reading(w, now) + (now - w.since))
  {
    hide After, Regular, Ordered, Expired, Watch;
    RegularTracks(timeout, t0, h);
    ExpiredAt(After(Fresh(timeout, t0), h), Watch(Started(timeout, t0), h), now);
  }

  // ---------- Histories that go wrong ----------

  lemma OneMore(timeout: u32, t0: nat, h: seq<Timed>, x: Timed)
    requires Ordered(t0, h) && LastTime(t0, h) <= x.at
    ensures var h', t, w := h + [x], After(Fresh(timeout, t0), h), Watch(Started(timeout, t0), h);
            && Ordered(t0, h') && LastTime(t0, h') == x.at
            && After(Fresh(timeout, t0), h') == Apply(t, x.op, x.at)
            && Watch(Started(timeout, t0), h') == Press(w, x.op, x.at)
            && (HarmlessRun(timeout, t0, h') <==> HarmlessRun(timeout, t0, h) && Harmless(t, w.running, x.op, x.at))
  {
    assert (h + [x])[..|h|] == h;
  }

  /** Frozen at 50 with a timeout of 100, the timer reads 50 for good, but has expired at 160. */
  lemma FrozenExpires()
    ensures var h := [] + [Timed(50, Freeze)];
            && Ordered(0, h) && HarmlessRun(100, 0, h)
            && Reading(Watch(Started(100, 0), h), 160) == 50 && Expired(After(Fresh(100, 0), h), 160)
  {
    OneMore(100, 0, [], Timed(50, Freeze));
  }

  /** A second Thaw shifts the start mark again, because the first one leaves the frozen flag set: the
      timer is late. */
  lemma ThawTwice()
    ensures var h := [Timed(10, Freeze), Timed(20, Thaw)];
            var h' := h + [Timed(30, Thaw)];
            && Ordered(0, h') && HarmlessRun(100, 0, h) && !HarmlessRun(100, 0, h')
            && Reading(Watch(Started(100, 0), h'), 130) > 100 && !Expired(After(Fresh(100, 0), h'), 130)
  {
    OneMore(100, 0, [], Timed(10, Freeze));
    OneMore(100, 0, [Timed(10, Freeze)], Timed(20, Thaw));
    OneMore(100, 0, [Timed(10, Freeze), Timed(20, Thaw)], Timed(30, Thaw));
    assert [] + [Timed(10, Freeze)] == [Timed(10, Freeze)];
    assert [Timed(10, Freeze)] + [Timed(20, Thaw)] == [Timed(10, Freeze), Timed(20, Thaw)];
  }

  /** A Restart inside a freeze keeps the old freeze mark: the timer expires at once. */
  lemma RestartWhileFrozen()
    ensures var h := [Timed(10, Freeze)];
            var h' := h + [Timed(50, Restart)];
            var h'' := h' + [Timed(60, Thaw)];
            && Ordered(0, h'') && HarmlessRun(100, 0, h) && !HarmlessRun(100, 0, h')
            && Reading(Watch(Started(100, 0), h''), 61) == 1 && Expired(After(Fresh(100, 0), h''), 61)
  {
    OneMore(100, 0, [], Timed(10, Freeze));
    OneMore(100, 0, [Timed(10, Freeze)], Timed(50, Restart));
    OneMore(100, 0, [Timed(10, Freeze)] + [Timed(50, Restart)], Timed(60, Thaw));
    assert [] + [Timed(10, Freeze)] == [Timed(10, Freeze)];
  }
}
