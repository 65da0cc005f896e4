/** The speed controller: logging cadence, the shared text buffer and the motor's duty cycle. */
module Control {
  import opened Bytes
  import opened Messages
  import opened OsTimer
  import Rps

  const RPS_MAX := 340
  const RPS_MIN := 50
  const TICK := 250

  // ---------- Log text ----------

  function Ascii(s: string): (b: seq<byte>)
    ensures |b| == |s|
  {
    seq(|s|, i requires 0 <= i < |s| => s[i] as int % 256)
  }

  function Decimal(n: nat): (d: seq<byte>)
    ensures |d| > 0
  {
    if n < 10 then [48 + n] else Decimal(n / 10) + [48 + n % 10]
  }

  function PadLeft(width: nat, d: seq<byte>): seq<byte> {
    if |d| < width then seq(width - |d|, _ => 48) + d else d
  }

  /** `%03d` of a 16-bit word, printed as a signed number. */
  function Print03d(w: u16): seq<byte> {
    if w < 32768 then PadLeft(3, Decimal(w)) else [45] + PadLeft(2, Decimal(65536 - w))
  }

  const DEMAND_LABEL := "- Demand RPS: "
  const ACTUAL_LABEL := "\n- Actual RPS: "

  function LogText(demand: u16, actual: u16): seq<byte> {
    Ascii(DEMAND_LABEL) + Print03d(demand) + Ascii(ACTUAL_LABEL) + Print03d(actual) + [10]
  }

  /** The number that three digits spell. */
  function ValueOf(d: seq<byte>): int
    requires |d| == 3
  {
    100 * (d[0] as int - 48) + 10 * (d[1] as int - 48) + (d[2] as int - 48)
  }

  lemma ThreeDigits(w: u16)
    requires w < 1000
    ensures |Print03d(w)| == 3 && ValueOf(Print03d(w)) == w
    ensures forall i :: 0 <= i < 3 ==> 48 <= Print03d(w)[i] <= 57
  {
    if w < 10 {
      assert Print03d(w) == [48, 48, 48 + w];
    } else if w < 100 {
      assert Decimal(w) == [48 + w / 10, 48 + w % 10];
      assert Print03d(w) == [48, 48 + w / 10, 48 + w % 10];
    } else {
      assert Decimal(w / 10) == [48 + w / 10 / 10, 48 + w / 10 % 10];
      assert Print03d(w) == [48 + w / 10 / 10, 48 + w / 10 % 10, 48 + w % 10];
    }
  }

  lemma LabelsPrint()
    ensures |DEMAND_LABEL| == 14 && 0 !in Ascii(DEMAND_LABEL)
    ensures |ACTUAL_LABEL| == 15 && 0 !in Ascii(ACTUAL_LABEL)
  {
    assert forall i :: 0 <= i < 14 ==> 0 < DEMAND_LABEL[i] as int < 256;
    assert forall i :: 0 <= i < 15 ==> 0 < ACTUAL_LABEL[i] as int < 256;
  }

  /** Two numbers below 1000 make a text of exactly 36 characters, without a NUL, from which both
      can be read back. */
  lemma LogTextIs36(demand: u16, actual: u16)
    requires demand < 1000 && actual < 1000
    ensures var t := LogText(demand, actual);
            && |t| == 36 && 0 !in t
            && ValueOf(t[14..17]) == demand && ValueOf(t[32..35]) == actual
  {
    ThreeDigits(demand);
    ThreeDigits(actual);
    LabelsPrint();
    var t := LogText(demand, actual);
    assert t[14..17] == Print03d(demand);
    assert t[32..35] == Print03d(actual);
  }

  // ---------- The task ----------

  datatype State = State(timer: Timer, timerCounter: u32, demand: u32, actual: u32, buffer: seq<byte>, duty: byte)

  function Inc32(w: u32): u32 { (w + 1) % WRAP }

  /** Formats into the one static buffer and posts its address. */
  function SendLogMessage(c: State): State {
    c.(buffer := LogText(c.demand % 65536, c.actual % 65536))
  }

  const LOG_EVENT_NOTE := Note(MSG_ID_DATALOG_LOGEVENT, LogBuffer)

  function TaskStep(c: State, now: nat, count: u16): (State, seq<Note>) {
    if !Expired(c.timer, now) then (c, [])
    else
      var counter := if c.demand != 0 then Inc32(c.timerCounter) else c.timerCounter;
      var actual := Rps.GetRPS(count);
      var c1 := c.(timerCounter := counter, actual := actual);
      var posts := [Note(MSG_ID_NEW_ACTUAL_RPS, Value(actual))];
      if counter >= 8 && c.demand > 0 then
        (SendLogMessage(c1).(timerCounter := 0, timer := Apply(c.timer, Restart, now)), posts + [LOG_EVENT_NOTE])
      else
        (c1.(timer := Apply(c.timer, Restart, now)), posts)
  }

  /** The open-loop correction of an entered speed. */
  function Adjusted(demand: u32, w: u16): u32 {
    if w >= 330 || w == 0 then w
    else if w >= 310 then w - 10
    else if w >= 230 then w - 40
    else if w >= 150 then w - 40
    else if w >= 120 then w - 35
    else if w >= 100 then w - 25
    else if w >= 70 then w - 5
    else if w >= 50 then w + 5
    else demand
  }

  function Duty(demand: u32): int { demand * 255 % WRAP / RPS_MAX }

  function HandleStep(c: State, id: int, w: u16): (State, seq<Note>) {
    if id != MSG_ID_NEW_RPS_ENTERED then (c, [])
    else
      var c1 := c.(duty := Duty(Adjusted(c.demand, w)) % 256, demand := w);
      if w == 0 then (c1, [Note(MSG_ID_DATALOG_DUMPLOG, Value(0))])
      else (SendLogMessage(c1), [LOG_EVENT_NOTE])
  }

  class Control {
    const timer: OSTimer
    var timerCounter: u32
    var demandRps: u32
    var actualRps: u32
    var logMessage: seq<byte>
    var duty: byte // the PWM compare register

    function View(): State
      reads this, timer
    {
      State(timer.View(), timerCounter, demandRps, actualRps, logMessage, duty)
    }

    constructor (now: nat)
      ensures View() == State(Fresh(TICK, now), 0, 0, 0, [], 0)
      ensures fresh(timer)
    {
      timer := new OSTimer(TICK, now);
      timerCounter, demandRps, actualRps, logMessage, duty := 0, 0, 0, [], 0;
    }

    method TaskLoop(now: nat, count: u16) returns (posts: seq<Note>)
      modifies this, timer
      ensures (View(), posts) == TaskStep(old(View()), now, count)
    {
      posts := [];
      var expired := timer.IsExpired(now);
      if !expired {
        return;
      }
      if demandRps != 0 {
        timerCounter := Inc32(timerCounter);
      }
      actualRps := Rps.GetRPS(count);
      posts := [Note(MSG_ID_NEW_ACTUAL_RPS, Value(actualRps))];
      if timerCounter >= 8 && demandRps > 0 {
        var note := SendLog(demandRps % 65536, actualRps % 65536);
        posts := posts + [note];
        timerCounter := 0;
      }
      timer.Restart(now);
    }

    method EventHandler(id: int, w: u16) returns (posts: seq<Note>)
      modifies this
      ensures (View(), posts) == HandleStep(old(View()), id, w)
    {
      posts := [];
      if id != MSG_ID_NEW_RPS_ENTERED {
        return;
      }
      if w >= 330 || w == 0 {
        demandRps := w;
      } else if w >= 310 {
        demandRps := w - 10;
      } else if w >= 230 {
        demandRps := w - 40;
      } else if w >= 150 {
        demandRps := w - 40;
      } else if w >= 120 {
        demandRps := w - 35;
      } else if w >= 100 {
        demandRps := w - 25;
      } else if w >= 70 {
        demandRps := w - 5;
      } else if w >= 50 {
        demandRps := w + 5;
      }
      duty := demandRps * 255 % WRAP / RPS_MAX % 256;
      demandRps := w;
      if demandRps == 0 {
        posts := [Note(MSG_ID_DATALOG_DUMPLOG, Value(0))];
      } else {
        var note := SendLog(demandRps % 65536, actualRps % 65536);
        posts := [note];
      }
    }

    method SendLog(demand: u16, actual: u16) returns (note: Note)
      modifies `logMessage
      ensures logMessage == LogText(demand, actual) && note == LOG_EVENT_NOTE
    {
      logMessage := LogText(demand, actual);
      note := LOG_EVENT_NOTE;
    }
  }

  // ---------- Laws ----------

  /** A speed the display lets through: stop, or a value in the motor's range. */
  predicate Admissible(w: u16) { w == 0 || RPS_MIN <= w <= RPS_MAX }

  /** For an admissible speed the 8-bit duty register is not truncated, and only a stop stops. */
  lemma DutyFits(c: State, w: u16)
    requires Admissible(w)
    ensures 0 <= Duty(Adjusted(c.demand, w)) <= 255
    ensures HandleStep(c, MSG_ID_NEW_RPS_ENTERED, w).0.duty == Duty(Adjusted(c.demand, w))
    ensures HandleStep(c, MSG_ID_NEW_RPS_ENTERED, w).0.duty == 0 <==> w == 0
  {
  }

  /** After a tick there is no other for at least 250 milliseconds. */
  lemma TicksArePaced(c: State, now: nat, count: u16, later: nat, count': u16)
    requires c.timer.time == TICK && Expired(c.timer, now) && now <= later <= now + TICK
    ensures TaskStep(TaskStep(c, now, count).0, later, count') == (TaskStep(c, now, count).0, [])
  {
    ModDifference(later, now);
  }

  datatype Event = Task(now: nat, count: u16) | Enter(w: u16)

  function Next(c: State, e: Event): (State, seq<Note>) {
    match e
    case Task(now, count) => TaskStep(c, now, count)
    case Enter(w) => HandleStep(c, MSG_ID_NEW_RPS_ENTERED, w)
  }

  function Run(c: State, es: seq<Event>): State {
    if es == [] then c else Next(Run(c, es[..|es| - 1]), es[|es| - 1]).0
  }

  /** Expired ticks taken while a speed is demanded. */
  function Ticks(c: State, es: seq<Event>): nat {
    if es == [] then 0
    else
      var before, e := Run(c, es[..|es| - 1]), es[|es| - 1];
      Ticks(c, es[..|es| - 1]) + if e.Task? && Expired(before.timer, e.now) && before.demand != 0 then 1 else 0
  }

  /** Log messages posted by the task loop itself. */
  function PeriodicLogs(c: State, es: seq<Event>): nat {
    if es == [] then 0
    else
      var before, e := Run(c, es[..|es| - 1]), es[|es| - 1];
      PeriodicLogs(c, es[..|es| - 1]) + if e.Task? && LOG_EVENT_NOTE in Next(before, e).1 then 1 else 0
  }

  /** Every eighth tick under demand is logged, no tick is lost when the demand goes to zero and
      back, and the counter never reaches eight between calls. */
  lemma {:induction false} CadenceIsConserved(c: State, es: seq<Event>)
    requires c.timerCounter < 8
    ensures Run(c, es).timerCounter < 8
    ensures 8 * PeriodicLogs(c, es) + Run(c, es).timerCounter == c.timerCounter + Ticks(c, es)
    decreases |es|
  {
    if es != [] {
      CadenceIsConserved(c, es[..|es| - 1]);
      CadenceStep(Run(c, es[..|es| - 1]), es[|es| - 1]);
    }
  }

  lemma CadenceStep(c: State, e: Event)
    requires c.timerCounter < 8
    ensures Next(c, e).0.timerCounter < 8
    ensures 8 * (if e.Task? && LOG_EVENT_NOTE in Next(c, e).1 then 1 else 0) + Next(c, e).0.timerCounter
         == c.timerCounter + if e.Task? && Expired(c.timer, e.now) && c.demand != 0 then 1 else 0
  {
    if e.Task? && Expired(c.timer, e.now) {
      var actual := Note(MSG_ID_NEW_ACTUAL_RPS, Value(Rps.GetRPS(e.count)));
      assert LOG_EVENT_NOTE !in [actual] && ([actual] + [LOG_EVENT_NOTE])[1] == LOG_EVENT_NOTE;
    }
  }

  /** Both numbers that are ever formatted stay below 1000. */
  ghost predicate Printable(c: State) {
    c.demand <= RPS_MAX && c.actual <= 840
  }

  lemma StaysPrintable(c: State, e: Event)
    requires Printable(c) && (e.Enter? ==> Admissible(e.w))
    ensures Printable(Next(c, e).0)
  {
    hide LogText, Adjusted, Expired;
    if e.Task? {
      Rps.ConversionIsExactIff(e.count);
    }
  }

  /** The buffer changes only together with a log message, and then to the text of the speeds then
      in force: always 36 characters. */
  lemma TextInPosts(c: State, e: Event)
    requires Printable(c) && (e.Enter? ==> Admissible(e.w))
    ensures var (c', posts) := Next(c, e);
            if LOG_EVENT_NOTE in posts then
              c'.buffer == LogText(c'.demand, c'.actual) && |c'.buffer| == 36 && 0 !in c'.buffer
            else c'.buffer == c.buffer
  {
    hide LogText, Adjusted, Expired;
    StaysPrintable(c, e);
    var r := Next(c, e);
    LogTextIs36(r.0.demand, r.0.actual);
    if e.Task? && |r.1| == 2 {
      assert r.1[1] == LOG_EVENT_NOTE;
    } else if e.Enter? {
      assert |r.1| == 1;
    }
  }
}
