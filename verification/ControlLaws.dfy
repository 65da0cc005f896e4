/** What the controller does over whole runs, told from the times, tachometer counts and entered speeds alone. */
module ControlLaws {
  import opened Bytes
  import opened Messages
  import opened OsTimer
  import Rps
  import opened Control

  // ---------- The reference ----------

  /** When the last tick was: the first task call more than 250 ms after the one before. */
  function LastTick(t0: nat, es: seq<Event>): nat {
    if es == [] then t0
    else
      var before := LastTick(t0, es[..|es| - 1]);
      match es[|es| - 1]
      case Task(now, _) => if now > before + 250 then now else before
      case Enter(_) => before
  }

  /** Event `e` is a tick. */
  predicate IsTick(t0: nat, es: seq<Event>, e: Event) {
    e.Task? && e.now > LastTick(t0, es) + 250
  }

  /** Time does not run backwards, and no tick is later than 2^32 ms after the one before. */
  predicate Timely(t0: nat, es: seq<Event>) {
    es == [] ||
    (var most, e := es[..|es| - 1], es[|es| - 1];
     Timely(t0, most) && (e.Task? ==> LastTick(t0, most) <= e.now < LastTick(t0, most) + 0x1_0000_0000))
  }

  /** The speed entered last. */
  function LastSpeed(es: seq<Event>): u16 {
    if es == [] then 0
    else if es[|es| - 1].Enter? then es[|es| - 1].w
    else LastSpeed(es[..|es| - 1])
  }

  /** Revolutions per second from a latched count, in 16-bit arithmetic. */
  function Conversion(count: u16): u16 { count * 100 % 65536 / 78 }

  /** What the last tick measured. */
  function Measured(t0: nat, es: seq<Event>): u16 {
    if es == [] then 0
    else if IsTick(t0, es[..|es| - 1], es[|es| - 1]) then Conversion(es[|es| - 1].count)
    else Measured(t0, es[..|es| - 1])
  }

  /** The ticks so far that came while a speed was demanded. */
  function DemandTicks(t0: nat, es: seq<Event>): nat {
    if es == [] then 0
    else
      var most := es[..|es| - 1];
      DemandTicks(t0, most) + if IsTick(t0, most, es[|es| - 1]) && LastSpeed(most) != 0 then 1 else 0
  }

  /** Tick `e` is one of the ticks under demand that are logged: every eighth. */
  predicate IsLogged(t0: nat, es: seq<Event>, e: Event) {
    IsTick(t0, es, e) && LastSpeed(es) != 0 && (DemandTicks(t0, es) + 1) % 8 == 0
  }

  /** What event `e` makes the controller post. */
  function Expected(t0: nat, es: seq<Event>, e: Event): seq<Note> {
    match e
    case Enter(w) =>
      if w == 0 then [Note(10, Value(0))] else [Note(8, LogBuffer)]
    case Task(_, count) =>
      if !IsTick(t0, es, e) then []
      else [Note(5, Value(Conversion(count)))] + if IsLogged(t0, es, e) then [Note(8, LogBuffer)] else []
  }

  /** The text that is formatted with it: the speed entered last and the speed measured last. */
  function ExpectedText(t0: nat, es: seq<Event>, e: Event): seq<seq<byte>> {
    match e
    case Enter(w) => if w == 0 then [] else [LogText(w, Measured(t0, es))]
    case Task(_, count) => if IsLogged(t0, es, e) then [LogText(LastSpeed(es), Conversion(count))] else []
  }

  function AllExpected(t0: nat, es: seq<Event>): seq<Note> {
    if es == [] then [] else AllExpected(t0, es[..|es| - 1]) + Expected(t0, es[..|es| - 1], es[|es| - 1])
  }

  function AllExpectedTexts(t0: nat, es: seq<Event>): seq<seq<byte>> {
    if es == [] then [] else AllExpectedTexts(t0, es[..|es| - 1]) + ExpectedText(t0, es[..|es| - 1], es[|es| - 1])
  }

  // ---------- The motor's duty cycle ----------

  /** The open-loop corrections: from this speed on, so much is added. */
  const CORRECTIONS: seq<(int, int)> :=
    [(330, 0), (310, -10), (150, -40), (120, -35), (100, -25), (70, -5), (50, 5), (0, 0)]

  function CorrectionFrom(i: nat, w: nat): int
    requires i < |CORRECTIONS|
    decreases |CORRECTIONS| - i
  {
    if w >= CORRECTIONS[i].0 || i + 1 == |CORRECTIONS| then CORRECTIONS[i].1 else CorrectionFrom(i + 1, w)
  }

  /** The duty, 0 to 255, for an admissible speed out of 340. */
  function DutyOf(w: u16): int { (w + CorrectionFrom(0, w)) * 255 / 340 }

  lemma AdjustedIsTable(demand: u32, w: u16)
    requires Admissible(w)
    ensures Adjusted(demand, w) == w + CorrectionFrom(0, w) <= 340
  {
    if w == 0 {
      NoCorrection();
    } else {
      CorrectionTable(w);
      hide CorrectionFrom;
    }
  }

  lemma NoCorrection()
    ensures CorrectionFrom(0, 0) == 0
  {
    assert CorrectionFrom(7, 0) == 0 && CorrectionFrom(4, 0) == CorrectionFrom(5, 0) == CorrectionFrom(6, 0);
    assert CorrectionFrom(0, 0) == CorrectionFrom(1, 0) == CorrectionFrom(2, 0) == CorrectionFrom(3, 0);
  }

  lemma DutyIsTable(c: State, w: u16)
    requires Admissible(w)
    ensures HandleStep(c, 7, w).0.duty == DutyOf(w)
  {
    hide Adjusted, CorrectionFrom, LogText;
    AdjustedIsTable(c.demand, w);
  }

  lemma CorrectionTable(w: nat)
    requires 50 <= w <= 340
    ensures CorrectionFrom(0, w) ==
              if w >= 330 then 0 else if w >= 310 then -10 else if w >= 150 then -40 else if w >= 120 then -35
              else if w >= 100 then -25 else if w >= 70 then -5 else 5
  {
    assert CorrectionFrom(0, w) == if w >= 330 then 0 else CorrectionFrom(1, w);
    assert CorrectionFrom(1, w) == if w >= 310 then -10 else CorrectionFrom(2, w);
    assert CorrectionFrom(2, w) == if w >= 150 then -40 else CorrectionFrom(3, w);
    assert CorrectionFrom(3, w) == if w >= 120 then -35 else CorrectionFrom(4, w);
    assert CorrectionFrom(4, w) == if w >= 100 then -25 else CorrectionFrom(5, w);
    assert CorrectionFrom(5, w) == if w >= 70 then -5 else CorrectionFrom(6, w);
    assert CorrectionFrom(6, w) == 5;
  }

  // ---------- The law ----------

  function Start(t0: nat): State { State(Fresh(TICK, t0), 0, 0, 0, [], 0) }

  /** The state, told from the history. */
  ghost predicate Follows(t0: nat, es: seq<Event>, c: State) {
    && c.timer == Timer(Millis(LastTick(t0, es)), 250, 0, false)
    && c.timerCounter == DemandTicks(t0, es) % 8
    && c.demand == LastSpeed(es) && c.actual == Measured(t0, es)
    && (Admissible(LastSpeed(es)) ==> c.duty == DutyOf(LastSpeed(es)))
  }

  lemma TickIff(t0: nat, es: seq<Event>, c: State, now: nat)
    requires Follows(t0, es, c) && LastTick(t0, es) <= now < LastTick(t0, es) + 0x1_0000_0000
    ensures Expired(c.timer, now) <==> now > LastTick(t0, es) + 250
  {
    ModDifference(now, LastTick(t0, es));
  }

  lemma OneEvent(t0: nat, es: seq<Event>, e: Event)
    ensures var all := es + [e];
            && LastTick(t0, all) == (if IsTick(t0, es, e) then e.now else LastTick(t0, es))
            && LastSpeed(all) == (if e.Enter? then e.w else LastSpeed(es))
            && Measured(t0, all) == (if IsTick(t0, es, e) then Conversion(e.count) else Measured(t0, es))
            && DemandTicks(t0, all) == DemandTicks(t0, es) + (if IsTick(t0, es, e) && LastSpeed(es) != 0 then 1 else 0)
  {
    assert (es + [e])[..|es|] == es;
  }

  lemma EnterFollows(t0: nat, es: seq<Event>, c: State, w: u16)
    requires Follows(t0, es, c)
    ensures var (c', posts) := Next(c, Enter(w));
            && Follows(t0, es + [Enter(w)], c')
            && posts == Expected(t0, es, Enter(w))
            && (if w == 0 then c'.buffer == c.buffer else ExpectedText(t0, es, Enter(w)) == [c'.buffer])
  {
    hide LogText, Adjusted, Duty, Expired;
    OneEvent(t0, es, Enter(w));
    if Admissible(w) {
      DutyIsTable(c, w);
    }
  }

  lemma Eighth(n: nat)
    ensures n % 8 + 1 >= 8 <==> (n + 1) % 8 == 0
    ensures (n + 1) % 8 == if n % 8 + 1 >= 8 then 0 else n % 8 + 1
  {
  }

  lemma SameConversion(count: u16)
    ensures Rps.GetRPS(count) == Conversion(count)
  {
  }

  lemma TaskFollows(t0: nat, es: seq<Event>, c: State, now: nat, count: u16)
    requires Follows(t0, es, c) && LastTick(t0, es) <= now < LastTick(t0, es) + 0x1_0000_0000
    ensures var e := Task(now, count);
            var (c', posts) := Next(c, e);
            && Follows(t0, es + [e], c')
            && posts == Expected(t0, es, e)
            && (if ExpectedText(t0, es, e) == [] then c'.buffer == c.buffer else ExpectedText(t0, es, e) == [c'.buffer])
  {
    hide LogText, Adjusted, Duty, DutyOf, Expired, Conversion, Rps.GetRPS, Admissible;
    OneEvent(t0, es, Task(now, count));
    TickIff(t0, es, c, now);
    Eighth(DemandTicks(t0, es));
    SameConversion(count);
  }

  lemma EventFollows(t0: nat, es: seq<Event>, c: State, e: Event)
    requires Follows(t0, es, c) && (e.Task? ==> LastTick(t0, es) <= e.now < LastTick(t0, es) + 0x1_0000_0000)
    ensures var (c', posts) := Next(c, e);
            && Follows(t0, es + [e], c')
            && posts == Expected(t0, es, e)
            && (if ExpectedText(t0, es, e) == [] then c'.buffer == c.buffer else ExpectedText(t0, es, e) == [c'.buffer])
  {
    hide Follows, Expected, Next, IsLogged;
    match e
    case Enter(w) => EnterFollows(t0, es, c, w);
    case Task(now, count) => TaskFollows(t0, es, c, now, count);
  }

  /** Everything posted, and every text formatted, during a run. */
  function Posts(c: State, es: seq<Event>): seq<Note> {
    if es == [] then [] else Posts(c, es[..|es| - 1]) + Next(Run(c, es[..|es| - 1]), es[|es| - 1]).1
  }

  function Texts(c: State, es: seq<Event>): seq<seq<byte>> {
    if es == [] then []
    else
      Texts(c, es[..|es| - 1])
      + if Note(8, LogBuffer) in Next(Run(c, es[..|es| - 1]), es[|es| - 1]).1 then [Run(c, es).buffer] else []
  }

  lemma TextIffNote(t0: nat, es: seq<Event>, e: Event)
    ensures Note(8, LogBuffer) in Expected(t0, es, e) <==> ExpectedText(t0, es, e) != []
  {
    if e.Task? && IsLogged(t0, es, e) {
      assert ([Note(5, Value(Conversion(e.count)))] + [Note(8, LogBuffer)])[1] == Note(8, LogBuffer);
    }
  }

  /** Over every run of task calls and entered speeds: each tick, the first call more than 250 ms after the one
      before, posts the speed of its own count once, and nothing is posted between ticks; every eighth tick
      under demand and every entered speed other than 0 posts a log message, whose text shows the speed entered
      last and the speed measured last; 0 posts the request for a dump; and the duty is that of the last speed. */
  lemma {:induction false} RunFollows(t0: nat, es: seq<Event>)
    requires Timely(t0, es)
    ensures Follows(t0, es, Run(Start(t0), es))
    ensures Posts(Start(t0), es) == AllExpected(t0, es)
    ensures Texts(Start(t0), es) == AllExpectedTexts(t0, es)
    decreases |es|
  {
    hide Follows, Expected, ExpectedText, Next;
    if es == [] {
      StartFollows(t0);
    } else {
      var most, e := es[..|es| - 1], es[|es| - 1];
      RunFollows(t0, most);
      EventFollows(t0, most, Run(Start(t0), most), e);
      TextIffNote(t0, most, e);
      assert most + [e] == es;
    }
  }

  lemma StartFollows(t0: nat)
    ensures Follows(t0, [], Start(t0))
  {
    assert CorrectionFrom(7, 0) == 0;
  }

  /** For counts that occur the conversion is exact, and such a text shows both numbers as three digits. */
  lemma TextShows(speed: u16, count: u16)
    requires speed <= 340 && count <= 655
    ensures var t := LogText(speed, Conversion(count));
            && |t| == 36 && ValueOf(t[14..17]) == speed && ValueOf(t[32..35]) == count * 100 / 78
            && t[..14] == Ascii("- Demand RPS: ") && t[17..32] == Ascii("\n- Actual RPS: ") && t[35] == 10
  {
    Rps.ConversionIsExactIff(count);
    LogTextIs36(speed, Conversion(count));
    ThreeDigits(speed);
    ThreeDigits(Conversion(count));
  }
}
