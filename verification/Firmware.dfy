/** The whole firmware: the kernel loop over the real tasks and event handlers. */
module Firmware {
  import opened Bytes
  import opened Messages
  import opened LogModel
  import E2Driver
  import TaskRing
  import OsTimer
  import Control
  import Display
  import Keypad
  import CrashSafety
  import ExactlyOnce
  import PageRoundTrip
  import Restart

  const KEYPAD := 1
  const DISPLAY := 2
  const LOGGER := 3
  const CONTROL := 4

  /** Newest first: the keypad registers itself twice in its constructor, then start-up starts the
      display, the logger and the controller. */
  const TASKS: seq<nat> := [CONTROL, LOGGER, DISPLAY, KEYPAD, KEYPAD]

  /** What the outside world supplies during one iteration: the time, the latched tachometer count,
      the keypad reading, how the bus answers the logger, the clock chip's answer, and what a
      fresh log page holds. */
  datatype Input = Input(now: nat, count: u16, reading: Keypad.Port, bus: Bus, arrival: Arrival)

  datatype Arrival = Arrival(date: Option<Date>, junk: MessageBuffer)

  datatype State = State(
    queue: seq<Note>,
    ring: TaskRing.Ring,
    control: Control.State,
    display: Display.State,
    keypad: Keypad.State,
    log: Log,
    formatted: seq<seq<byte>>, // every text formatted into the shared buffer
    logged: seq<seq<byte>>)    // every text the logger found there

  ghost predicate Wf(s: State) {
    Display.CursorOk(s.display) && WriterHasMessage(s.log) && TaskRing.IsRing(s.ring)
  }

  // ---------- One iteration ----------

  /** A handler or task step of the controller: its posts join the queue, and when it formatted a
      text that text is in the buffer now. */
  ghost function FromControl(s: State, r: (Control.State, seq<Note>)): State {
    s.(control := r.0, queue := s.queue + r.1,
       formatted := if Control.LOG_EVENT_NOTE in r.1 then s.formatted + [r.0.buffer] else s.formatted)
  }

  /** The event the logger sees when `n` is delivered, if it is one of its messages. */
  ghost function LogEventOf(s: State, n: Note, at: Arrival): seq<Event> {
    if n.id == MSG_ID_DATALOG_LOGEVENT then [LogEvent(s.control.buffer, at.date, at.junk)]
    else if n.id == MSG_ID_DATALOG_DUMPLOG then [DumpLog]
    else if n.id == MSG_ID_DATALOG_DELETELOG then [DeleteLog]
    else []
  }

  ghost function ToLog(s: State, es: seq<Event>): State
    requires WriterHasMessage(s.log) && |es| <= 1
  {
    if es == [] then s else s.(log := Next(s.log, es[0]))
  }

  function Number(c: Context): u16 { if c.Value? then c.w else 0 }

  /** Message `n`, taken off the queue, reaches its one subscriber. */
  ghost function Handle(s: State, n: Note, at: Arrival): (s': State)
    requires Wf(s)
    ensures Wf(s')
  {
    if n.id == MSG_ID_NEW_RPS_ENTERED then
      FromControl(s, Control.HandleStep(s.control, n.id, Number(n.context)))
    else if n.id == MSG_ID_INIT_COMPLETE || n.id == MSG_ID_NEW_ACTUAL_RPS || n.id == MSG_ID_KEY_PRESSED then
      s.(display := Display.HandleStep(s.display, n.id, Number(n.context)))
    else if n.id == MSG_ID_DATALOG_LOGEVENT then
      ToLog(s, LogEventOf(s, n, at)).(logged := s.logged + [s.control.buffer])
    else if n.id == MSG_ID_DATALOG_DUMPLOG || n.id == MSG_ID_DATALOG_DELETELOG then
      ToLog(s, LogEventOf(s, n, at))
    else s
  }

  /** The first message of the queue, if there is one, is taken off and handled. */
  ghost function Deliver(s: State, at: Arrival): (s': State)
    requires Wf(s)
    ensures Wf(s')
  {
    if s.queue == [] then s else Handle(s.(queue := s.queue[1..]), s.queue[0], at)
  }

  ghost function RunTask(s: State, task: nat, input: Input): (s': State)
    requires Wf(s)
    ensures Wf(s')
  {
    if task == CONTROL then FromControl(s, Control.TaskStep(s.control, input.now, input.count))
    else if task == LOGGER then s.(log := TaskStep(s.log, IoOf(s.log, input.bus)))
    else if task == DISPLAY then
      var (display, posts) := Display.TaskStep(s.display, input.now);
      s.(display := display, queue := s.queue + posts)
    else if task == KEYPAD then
      var (keypad, posts) := Keypad.TaskStep(s.keypad, input.reading, input.now);
      s.(keypad := keypad, queue := s.queue + posts)
    else s
  }

  /** The task ring moves on by one task and runs it. No task registers another. */
  ghost function Schedule(s: State, input: Input): (s': State)
    requires Wf(s)
    ensures Wf(s')
  {
    var ring := TaskRing.Step(s.ring, _ => []);
    var s1 := s.(ring := ring);
    if |ring.calls| > |s.ring.calls| then RunTask(s1, ring.calls[|s.ring.calls|], input) else s1
  }

  /** The message phase of an iteration: at most two messages reach their handlers. */
  ghost function MessagePhase(s: State, at: Arrival): (s': State)
    requires Wf(s)
    ensures Wf(s')
  {
    Deliver(Deliver(s, at), at)
  }

  /** Two messages, then one task. */
  ghost function Loop(s: State, input: Input): (s': State)
    requires Wf(s)
    ensures Wf(s')
  {
    Schedule(MessagePhase(s, input.arrival), input)
  }

  ghost function Run(s: State, inputs: seq<Input>): (s': State)
    requires Wf(s)
    ensures Wf(s')
    decreases |inputs|
  {
    if inputs == [] then s else Loop(Run(s, inputs[..|inputs| - 1]), inputs[|inputs| - 1])
  }

  /** After construction and start-up: the display handler of the segment display has posted a blank,
      and start-up reports completion if the clock could be set. */
  ghost function Boot(now: nat, clockSet: bool, store: E2Driver.Store): State {
    State(
      [Keypad.SegNote(Keypad.BLANK)] + if clockSet then [Note(MSG_ID_INIT_COMPLETE, Value(0))] else [],
      TaskRing.Ring(TASKS, 0, []),
      Control.State(OsTimer.Fresh(Control.TICK, now), 0, 0, 0, [], 0),
      Display.Initial(now),
      Keypad.State(Keypad.KeyIdle, 0, OsTimer.Fresh(10, now)),
      LogModel.PowerUp(store),
      [], [])
  }

  // ---------- The bound on the queue ----------

  /** An entered speed costs two, since its handler posts one message more. */
  function WeightOf(n: Note): nat { if n.id == MSG_ID_NEW_RPS_ENTERED then 2 else 1 }

  function Weight(queue: seq<Note>): nat {
    if queue == [] then 0 else WeightOf(queue[0]) + Weight(queue[1..])
  }

  /** The messages the application posts, and what they carry. */
  predicate Known(n: Note) {
    || (n.id == MSG_ID_UPDATE_7SEG && n.context.Value?)
    || (n.id == MSG_ID_KEY_PRESSED && n.context.Value? && n.context.w <= 11)
    || (n.id == MSG_ID_INIT_COMPLETE && n.context.Value?)
    || (n.id == MSG_ID_NEW_ACTUAL_RPS && n.context.Value?)
    || (n.id == MSG_ID_NEW_RPS_ENTERED && n.context.Value? && Control.Admissible(n.context.w))
    || (n.id == MSG_ID_DATALOG_DUMPLOG && n.context.Value?)
    || n == Control.LOG_EVENT_NOTE
  }

  ghost predicate KnownAll(queue: seq<Note>) { forall i :: 0 <= i < |queue| ==> Known(queue[i]) }

  /** The text that a queued log message points to: none or one, and it is in the buffer. */
  function InFlight(queue: seq<Note>, buffer: seq<byte>): seq<seq<byte>> {
    if queue == [] then []
    else (if queue[0] == Control.LOG_EVENT_NOTE then [buffer] else []) + InFlight(queue[1..], buffer)
  }

  /** A log text of two speeds that can occur. */
  ghost predicate IsText(t: seq<byte>) {
    exists demand: u16, actual: u16 :: demand <= Control.RPS_MAX && actual <= 840 && t == Control.LogText(demand, actual)
  }

  lemma TextIsShort(t: seq<byte>)
    requires IsText(t)
    ensures |t| == 36 && 0 !in t
  {
    var demand: u16, actual: u16 :| demand <= Control.RPS_MAX && actual <= 840 && t == Control.LogText(demand, actual);
    Control.LogTextIs36(demand, actual);
  }

  /** What holds between any two handler calls. */
  ghost predicate Inv(s: State) {
    && Wf(s)
    && Weight(s.queue) <= 2 && KnownAll(s.queue)
    && Control.Printable(s.control)
    && !s.log.startDelete
    && |InFlight(s.queue, s.control.buffer)| <= 1
    && (InFlight(s.queue, s.control.buffer) != [] ==> IsText(s.control.buffer))
    && s.formatted == s.logged + InFlight(s.queue, s.control.buffer)
  }

  lemma Uncons(n: Note, rest: seq<Note>)
    ensures Weight([n] + rest) == WeightOf(n) + Weight(rest)
    ensures forall b :: InFlight([n] + rest, b) == (if n == Control.LOG_EVENT_NOTE then [b] else []) + InFlight(rest, b)
  {
    assert ([n] + rest)[1..] == rest;
  }

  /** The weight and the buffer references of the queues that a single step can leave. */
  lemma Small(m: Note, n: Note)
    ensures Weight([]) == 0 && forall b :: InFlight([], b) == []
    ensures Weight([n]) == WeightOf(n)
    ensures forall b :: InFlight([n], b) == if n == Control.LOG_EVENT_NOTE then [b] else []
    ensures Weight([m, n]) == WeightOf(m) + WeightOf(n)
    ensures m != Control.LOG_EVENT_NOTE ==> forall b :: InFlight([m, n], b) == InFlight([n], b)
  {
    Uncons(n, []);
    Uncons(m, [n]);
    assert [n] + [] == [n] && [m] + [n] == [m, n];
  }

  /** A queue of weight two that starts with an entered speed holds nothing else. */
  lemma SpeedStandsAlone(queue: seq<Note>)
    requires queue != [] && Weight(queue) <= 2 && queue[0].id == MSG_ID_NEW_RPS_ENTERED
    ensures queue == [queue[0]]
  {
    assert Weight(queue[1..]) == 0;
  }

  /** A text that was just formatted is a log text. */
  lemma FreshText(c: Control.State, e: Control.Event)
    requires Control.Printable(c) && (e.Enter? ==> Control.Admissible(e.w))
    ensures Control.LOG_EVENT_NOTE in Control.Next(c, e).1 ==> IsText(Control.Next(c, e).0.buffer)
  {
    hide Control.Next;
    Control.StaysPrintable(c, e);
    Control.TextInPosts(c, e);
    var c' := Control.Next(c, e).0;
    assert c'.buffer == Control.LogText(c'.demand, c'.actual) ==> IsText(c'.buffer);
  }

  // ---------- Delivering one message ----------

  lemma DeliverSpeed(s: State, at: Arrival)
    requires Inv(s) && s.queue != [] && s.queue[0].id == MSG_ID_NEW_RPS_ENTERED
    ensures Inv(Deliver(s, at)) && Weight(Deliver(s, at).queue) == Weight(s.queue) - 1
  {
    hide Control.Adjusted, Control.LogText, Display.CursorOk, WriterHasMessage, TaskRing.IsRing;
    var n := s.queue[0];
    SpeedStandsAlone(s.queue);
    var r := Control.HandleStep(s.control, n.id, n.context.w);
    Control.StaysPrintable(s.control, Control.Enter(n.context.w));
    Control.TextInPosts(s.control, Control.Enter(n.context.w));
    FreshText(s.control, Control.Enter(n.context.w));
    assert r.1 == [r.1[0]];
    Small(n, n);
    Small(n, r.1[0]);
    assert s.queue[1..] + r.1 == r.1;
    assert KnownAll(r.1);
  }

  /** A log message takes its text with it: none can be queued behind it. */
  lemma DeliverLogMessage(s: State, at: Arrival)
    requires Inv(s) && s.queue != [] && s.queue[0] == Control.LOG_EVENT_NOTE
    ensures Inv(Deliver(s, at)) && Weight(Deliver(s, at).queue) == Weight(s.queue) - 1
  {
    hide Control.Printable, Display.CursorOk, WriterHasMessage, TaskRing.IsRing, Accepts;
    var n, rest, b := s.queue[0], s.queue[1..], s.control.buffer;
    assert s.queue == [n] + rest;
    Uncons(n, rest);
    assert InFlight(s.queue, b) == [b] + InFlight(rest, b);
    assert InFlight(rest, b) == [];
  }

  lemma DeliverOther(s: State, at: Arrival)
    requires Inv(s) && s.queue != [] && s.queue[0].id != MSG_ID_NEW_RPS_ENTERED && s.queue[0] != Control.LOG_EVENT_NOTE
    ensures Inv(Deliver(s, at)) && Weight(Deliver(s, at).queue) == Weight(s.queue) - 1
  {
    hide Control.Printable, Display.HandleStep, Display.CursorOk, WriterHasMessage, TaskRing.IsRing, IsText;
    var n, rest := s.queue[0], s.queue[1..];
    assert s.queue == [n] + rest;
    Uncons(n, rest);
    assert Known(n);
    assert InFlight(s.queue, s.control.buffer) == InFlight(rest, s.control.buffer);
  }

  /** Delivering a message takes exactly one from the weight of the queue. */
  lemma DeliverTakesOne(s: State, at: Arrival)
    requires Inv(s)
    ensures Inv(Deliver(s, at))
    ensures Weight(Deliver(s, at).queue) == if s.queue == [] then 0 else Weight(s.queue) - 1
  {
    if s.queue != [] {
      if s.queue[0].id == MSG_ID_NEW_RPS_ENTERED {
        DeliverSpeed(s, at);
      } else if s.queue[0] == Control.LOG_EVENT_NOTE {
        DeliverLogMessage(s, at);
      } else {
        DeliverOther(s, at);
      }
    }
  }

  lemma WeightZero(queue: seq<Note>)
    ensures Weight(queue) == 0 <==> queue == []
  {
  }

  // ---------- Running one task ----------

  lemma ControlRuns(s: State, input: Input)
    requires Inv(s) && s.queue == []
    ensures Inv(RunTask(s, CONTROL, input))
  {
    hide Control.LogText, Control.Printable, OsTimer.Expired, Display.CursorOk, WriterHasMessage, TaskRing.IsRing;
    var r := Control.TaskStep(s.control, input.now, input.count);
    Control.StaysPrintable(s.control, Control.Task(input.now, input.count));
    Control.TextInPosts(s.control, Control.Task(input.now, input.count));
    FreshText(s.control, Control.Task(input.now, input.count));
    assert [] + r.1 == r.1;
    if |r.1| == 2 {
      Small(r.1[0], r.1[1]);
      assert r.1 == [r.1[0], r.1[1]];
    } else if |r.1| == 1 {
      Small(r.1[0], r.1[0]);
      assert r.1 == [r.1[0]];
    } else {
      Small(Control.LOG_EVENT_NOTE, Control.LOG_EVENT_NOTE);
    }
  }

  lemma LoggerRuns(s: State, input: Input)
    requires Inv(s) && s.queue == []
    ensures Inv(RunTask(s, LOGGER, input))
  {
    hide Control.Printable, Display.CursorOk, TaskRing.IsRing, IoOf;
    assert TaskStep(s.log, IoOf(s.log, input.bus)).startDelete == s.log.startDelete;
  }

  lemma DisplayRuns(s: State, input: Input)
    requires Inv(s) && s.queue == []
    ensures Inv(RunTask(s, DISPLAY, input))
  {
    hide Control.Printable, TaskRing.IsRing, WriterHasMessage;
    var posts := Display.TaskStep(s.display, input.now).1;
    assert s.queue + posts == posts;
    if |posts| == 1 {
      Small(posts[0], posts[0]);
      assert posts == [posts[0]];
    } else {
      Small(Control.LOG_EVENT_NOTE, Control.LOG_EVENT_NOTE);
      assert posts == [];
    }
  }

  lemma KeypadRuns(s: State, input: Input)
    requires Inv(s) && s.queue == []
    ensures Inv(RunTask(s, KEYPAD, input))
  {
    hide Control.Printable, Display.CursorOk, TaskRing.IsRing, WriterHasMessage, Keypad.KeyOf, OsTimer.Expired;
    var posts := Keypad.TaskStep(s.keypad, input.reading, input.now).1;
    assert s.queue + posts == posts;
    if |posts| == 2 {
      Small(posts[0], posts[1]);
      assert posts == [posts[0], posts[1]];
    } else if |posts| == 1 {
      Small(posts[0], posts[0]);
      assert posts == [posts[0]];
    } else {
      Small(Control.LOG_EVENT_NOTE, Control.LOG_EVENT_NOTE);
      assert posts == [];
    }
  }

  lemma ScheduleKeeps(s: State, input: Input)
    requires Inv(s) && s.queue == []
    ensures Inv(Schedule(s, input))
  {
    hide Control.Printable, Display.CursorOk, WriterHasMessage, RunTask;
    var ring := TaskRing.Step(s.ring, _ => []);
    var s1 := s.(ring := ring);
    assert Inv(s1);
    if |ring.calls| > |s.ring.calls| {
      var task := ring.calls[|s.ring.calls|];
      if task == CONTROL {
        ControlRuns(s1, input);
      } else if task == LOGGER {
        LoggerRuns(s1, input);
      } else if task == DISPLAY {
        DisplayRuns(s1, input);
      } else if task == KEYPAD {
        KeypadRuns(s1, input);
      } else {
        NoTask(s1, task, input);
      }
    }
  }

  lemma NoTask(s: State, task: nat, input: Input)
    requires Wf(s) && task != CONTROL && task != LOGGER && task != DISPLAY && task != KEYPAD
    ensures RunTask(s, task, input) == s
  {
  }

  // ---------- Whole runs ----------

  /** The message phase empties the queue, and everything formatted has then been handed over. */
  lemma MessagePhaseDrains(s: State, at: Arrival)
    requires Inv(s)
    ensures var t := MessagePhase(s, at);
            Inv(t) && t.queue == [] && t.formatted == t.logged
  {
    hide Inv, Deliver;
    InvIsWf(s);
    DeliverTakesOne(s, at);
    DeliverTakesOne(Deliver(s, at), at);
    WeightLimit(s);
    WeightZero(s.queue);
    WeightZero(Deliver(s, at).queue);
    WeightZero(MessagePhase(s, at).queue);
    NothingInFlight(MessagePhase(s, at));
  }

  lemma InvIsWf(s: State)
    requires Inv(s)
    ensures Wf(s)
  {
  }

  lemma WeightLimit(s: State)
    requires Inv(s)
    ensures Weight(s.queue) <= 2
  {
  }

  lemma NothingInFlight(s: State)
    requires Inv(s) && s.queue == []
    ensures s.formatted == s.logged
  {
  }

  lemma LoopKeeps(s: State, input: Input)
    requires Inv(s)
    ensures Inv(Loop(s, input))
  {
    hide Inv, Deliver, Schedule;
    InvIsWf(s);
    MessagePhaseDrains(s, input.arrival);
    ScheduleKeeps(MessagePhase(s, input.arrival), input);
  }

  lemma BootIsFine(now: nat, clockSet: bool, store: E2Driver.Store)
    ensures Inv(Boot(now, clockSet, store))
  {
    var a, b := Keypad.SegNote(Keypad.BLANK), Note(MSG_ID_INIT_COMPLETE, Value(0));
    Small(a, b);
    Small(a, a);
    assert [a] + [b] == [a, b] && [a] + [] == [a];
  }

  lemma {:induction false} RunKeeps(s: State, inputs: seq<Input>)
    requires Inv(s)
    ensures Inv(Run(s, inputs))
    decreases |inputs|
  {
    if inputs != [] {
      hide Inv, Loop;
      RunKeeps(s, inputs[..|inputs| - 1]);
      LoopKeeps(Run(s, inputs[..|inputs| - 1]), inputs[|inputs| - 1]);
    }
  }

  /** For all runs from power-up: at every start of an iteration the queue weighs at most two; after
      the message phase it is empty, so every task runs with an empty queue and no message waits
      longer than to the next iteration; and the texts the logger found in the shared buffer are
      exactly the texts formatted there, in order, the last one possibly still on its way. */
  lemma QueueBound(now: nat, clockSet: bool, store: E2Driver.Store, inputs: seq<Input>, at: Arrival)
    ensures var s := Run(Boot(now, clockSet, store), inputs);
            && Weight(s.queue) <= 2
            && MessagePhase(s, at).queue == []
            && MessagePhase(s, at).formatted == MessagePhase(s, at).logged
            && s.formatted == s.logged + InFlight(s.queue, s.control.buffer)
            && |InFlight(s.queue, s.control.buffer)| <= 1
  {
    BootIsFine(now, clockSet, store);
    RunKeeps(Boot(now, clockSet, store), inputs);
    MessagePhaseDrains(Run(Boot(now, clockSet, store), inputs), at);
  }

  // ---------- What the logger gets to see ----------

  ghost function LogEventsOfTask(s: State, input: Input): seq<Event>
    requires Wf(s)
  {
    var ring := TaskRing.Step(s.ring, _ => []);
    if |ring.calls| > |s.ring.calls| && ring.calls[|s.ring.calls|] == LOGGER then [Task(IoOf(s.log, input.bus))] else []
  }

  ghost function FirstEvent(s: State, at: Arrival): seq<Event> {
    if s.queue == [] then [] else LogEventOf(s, s.queue[0], at)
  }

  /** The logger's events during one iteration: its messages in the order of delivery, then its own
      task step if it is its turn. */
  ghost function LogEvents(s: State, input: Input): seq<Event>
    requires Wf(s)
  {
    var t := Deliver(s, input.arrival);
    FirstEvent(s, input.arrival) + FirstEvent(t, input.arrival) + LogEventsOfTask(Deliver(t, input.arrival), input)
  }

  ghost function AllLogEvents(s: State, inputs: seq<Input>): seq<Event>
    requires Wf(s)
    decreases |inputs|
  {
    if inputs == [] then []
    else AllLogEvents(s, inputs[..|inputs| - 1]) + LogEvents(Run(s, inputs[..|inputs| - 1]), inputs[|inputs| - 1])
  }

  /** Events that neither reset nor delete, and whose texts are log texts. */
  ghost predicate Proper(es: seq<Event>) {
    ExactlyOnce.Undisturbed(es) && forall e <- es :: e.LogEvent? ==> IsText(e.text)
  }

  /** The texts of the log messages among the events. */
  function Texts(es: seq<Event>): seq<seq<byte>> {
    if es == [] then []
    else Texts(es[..|es| - 1]) + if es[|es| - 1].LogEvent? then [es[|es| - 1].text] else []
  }

  lemma {:induction false} TextsConcat(a: seq<Event>, b: seq<Event>)
    ensures Texts(a + b) == Texts(a) + Texts(b)
    decreases |b|
  {
    if b == [] {
      assert a + b == a;
    } else {
      assert (a + b)[..|a + b| - 1] == a + b[..|b| - 1];
      TextsConcat(a, b[..|b| - 1]);
    }
  }

  lemma ProperConcat(a: seq<Event>, b: seq<Event>)
    requires Proper(a) && Proper(b)
    ensures Proper(a + b)
  {
  }

  lemma LogRun(log: Log, a: seq<Event>, b: seq<Event>)
    requires WriterHasMessage(log)
    ensures LogModel.Run(log, a + b) == LogModel.Run(LogModel.Run(log, a), b)
  {
    ExactlyOnce.RunAppend(log, a, b);
  }

  lemma RunOne(log: Log, e: Event)
    requires WriterHasMessage(log)
    ensures LogModel.Run(log, [e]) == Next(log, e) && LogModel.Run(log, []) == log
    ensures Texts([e]) == (if e.LogEvent? then [e.text] else []) && Texts([]) == []
  {
    assert [e][..0] == [];
  }

  lemma FirstEventIsProper(s: State, at: Arrival)
    requires Inv(s)
    ensures Proper(FirstEvent(s, at))
    ensures Deliver(s, at).log == LogModel.Run(s.log, FirstEvent(s, at))
    ensures Deliver(s, at).logged == s.logged + Texts(FirstEvent(s, at))
  {
    hide Control.Printable, Control.HandleStep, Display.HandleStep, Display.CursorOk, TaskRing.IsRing, LogModel.Run, Next, Texts;
    RunOne(s.log, DumpLog);
    if s.queue != [] {
      var n := s.queue[0];
      assert Known(n);
      if FirstEvent(s, at) != [] {
        RunOne(s.log, FirstEvent(s, at)[0]);
        assert FirstEvent(s, at) == [FirstEvent(s, at)[0]];
      }
    }
  }

  lemma TaskEventIsProper(s: State, input: Input)
    requires Inv(s)
    ensures Proper(LogEventsOfTask(s, input))
    ensures Schedule(s, input).log == LogModel.Run(s.log, LogEventsOfTask(s, input))
    ensures Schedule(s, input).logged == s.logged && Texts(LogEventsOfTask(s, input)) == []
  {
    hide Control.Printable, Control.TaskStep, Display.TaskStep, Keypad.TaskStep, Display.CursorOk, TaskRing.Step,
         TaskRing.IsRing, LogModel.Run, TaskStep, Texts;
    RunOne(s.log, Task(IoOf(s.log, input.bus)));
  }

  /** One iteration runs the logger through its events. */
  lemma IterationOnLog(s: State, input: Input)
    requires Inv(s)
    ensures Wf(s) && Proper(LogEvents(s, input))
    ensures Loop(s, input).log == LogModel.Run(s.log, LogEvents(s, input))
    ensures Loop(s, input).logged == s.logged + Texts(LogEvents(s, input))
  {
    hide Inv, Deliver, Schedule, Proper, FirstEvent, LogEventsOfTask, LogModel.Run, Texts;
    InvIsWf(s);
    var t := Deliver(s, input.arrival);
    var u := Deliver(t, input.arrival);
    DeliverTakesOne(s, input.arrival);
    DeliverTakesOne(t, input.arrival);
    InvIsWf(t);
    InvIsWf(u);
    FirstEventIsProper(s, input.arrival);
    FirstEventIsProper(t, input.arrival);
    TaskEventIsProper(u, input);
    var a, b, c := FirstEvent(s, input.arrival), FirstEvent(t, input.arrival), LogEventsOfTask(u, input);
    ProperConcat(a, b);
    ProperConcat(a + b, c);
    LogRun(s.log, a, b);
    LogRun(s.log, a + b, c);
    TextsConcat(a, b);
    TextsConcat(a + b, c);
  }

  lemma {:induction false} RunOnLog(s: State, inputs: seq<Input>)
    requires Inv(s)
    ensures Wf(s) && Proper(AllLogEvents(s, inputs))
    ensures Run(s, inputs).log == LogModel.Run(s.log, AllLogEvents(s, inputs))
    ensures Run(s, inputs).logged == s.logged + Texts(AllLogEvents(s, inputs))
    decreases |inputs|
  {
    hide Inv, Loop, LogEvents, LogModel.Run, Texts;
    InvIsWf(s);
    if inputs == [] {
      RunOne(s.log, DumpLog);
    } else {
      var most, last := inputs[..|inputs| - 1], inputs[|inputs| - 1];
      RunOnLog(s, most);
      RunKeeps(s, most);
      IterationOnLog(Run(s, most), last);
      ProperConcat(AllLogEvents(s, most), LogEvents(Run(s, most), last));
      LogRun(s.log, AllLogEvents(s, most), LogEvents(Run(s, most), last));
      TextsConcat(AllLogEvents(s, most), LogEvents(Run(s, most), last));
    }
  }

  /** Whatever its slot held before, reading the page of this record back yields this text. */
  ghost predicate ReadsBackAs(r: Record, text: seq<byte>) {
    forall stale: E2Driver.Page :: PageRoundTrip.ReadText(PageRoundTrip.WrittenPage(stale, r)) == text
  }

  lemma RecordReadsBack(date: Date, junk: MessageBuffer, text: seq<byte>)
    requires IsText(text) && |text| < MAX_LOG_MESSAGE_SIZE
    ensures ReadsBackAs(Record(date, StrLcpy(junk, text)), text)
  {
    TextIsShort(text);
    var r := Record(date, StrLcpy(junk, text));
    forall stale: E2Driver.Page
      ensures PageRoundTrip.ReadText(PageRoundTrip.WrittenPage(stale, r)) == text
    {
      PageRoundTrip.ShortTextSurvives(stale, junk, date, text);
    }
  }

  /** The text that an event hands over, if the logger takes it. */
  ghost function TakenText(log: Log, e: Event): seq<seq<byte>> {
    if e.LogEvent? && Accepts(log, e.text, e.reading) then [e.text] else []
  }

  /** The texts of the accepted log messages, in order. */
  ghost function AcceptedTexts(log: Log, es: seq<Event>): seq<seq<byte>>
    requires WriterHasMessage(log)
    decreases |es|
  {
    if es == [] then []
    else AcceptedTexts(log, es[..|es| - 1]) + TakenText(LogModel.Run(log, es[..|es| - 1]), es[|es| - 1])
  }

  ghost predicate Subsequence<T>(a: seq<T>, b: seq<T>)
    decreases |b|
  {
    a == [] ||
    (b != [] &&
     (|| (a[|a| - 1] == b[|b| - 1] && Subsequence(a[..|a| - 1], b[..|b| - 1]))
      || Subsequence(a, b[..|b| - 1])))
  }

  lemma SubsequenceBoth<T>(a: seq<T>, b: seq<T>, x: T)
    requires Subsequence(a, b)
    ensures Subsequence(a + [x], b + [x]) && Subsequence(a, b + [x])
  {
    assert (a + [x])[..|a|] == a && (b + [x])[..|b|] == b;
  }

  lemma {:induction false} AcceptedAreOffered(log: Log, es: seq<Event>)
    requires WriterHasMessage(log)
    ensures Subsequence(AcceptedTexts(log, es), Texts(es))
    decreases |es|
  {
    hide Subsequence, LogModel.Run, Accepts;
    if es == [] {
      assert Subsequence<seq<byte>>([], []) by { NothingIsSubsequence<seq<byte>>([]); }
    } else {
      var most, e := es[..|es| - 1], es[|es| - 1];
      AcceptedAreOffered(log, most);
      if e.LogEvent? {
        SubsequenceBoth(AcceptedTexts(log, most), Texts(most), e.text);
      }
      assert Texts(most) + [] == Texts(most) && AcceptedTexts(log, most) + [] == AcceptedTexts(log, most);
    }
  }

  lemma NothingIsSubsequence<T>(b: seq<T>)
    ensures Subsequence([], b)
  {
  }

  /** Record by record, what entered the queue reads back as the text it was accepted from. */
  ghost predicate ReadBack(records: seq<Record>, texts: seq<seq<byte>>) {
    |records| == |texts| && forall i :: 0 <= i < |records| ==> ReadsBackAs(records[i], texts[i])
  }

  lemma {:induction false} EnteredReadBack(log: Log, es: seq<Event>)
    requires WriterHasMessage(log) && log.pending == [] && Proper(es)
    ensures ReadBack(ExactlyOnce.Entered(log, es), AcceptedTexts(log, es))
    decreases |es|
  {
    hide ReadsBackAs, LogModel.Run, StrLcpy, IsText;
    if es != [] {
      var most, e := es[..|es| - 1], es[|es| - 1];
      EnteredReadBack(log, most);
      assert e in es;
      var t := LogModel.Run(log, most);
      if e.LogEvent? && Accepts(t, e.text, e.reading) {
        RecordReadsBack(e.reading.value, e.junk, e.text);
      }
    }
  }

  /** End to end, for any run of the firmware from power-up on any usable device, with any bus failures:
      the logger is offered exactly the texts that were formatted, in order (the last one may still be on
      its way); the texts it accepted are some of these, in order; their records are appended to the log the
      device held or still queued, once and in order; and each reads back from its page as the very text it
      was accepted from, whatever lay in its slot. */
  lemma LoggingIsFaithful(now: nat, clockSet: bool, store: E2Driver.Store, inputs: seq<Input>)
    requires ExactlyOnce.Usable(store)
    ensures var s := Boot(now, clockSet, store);
            var t, es := Run(s, inputs), AllLogEvents(s, inputs);
            var records, texts := ExactlyOnce.Entered(s.log, es), AcceptedTexts(s.log, es);
            && t.formatted == Texts(es) + InFlight(t.queue, t.control.buffer)
            && Subsequence(texts, Texts(es))
            && ExactlyOnce.BalancedFrom(store, t.log, records, ExactlyOnce.Commits(s.log, es))
            && ReadBack(records, texts)
  {
    hide Inv, Boot, Run, AllLogEvents, ExactlyOnce.BalancedFrom, ReadBack, LogModel.Run, Texts, InFlight, Subsequence,
         AcceptedTexts, ExactlyOnce.Usable, Proper;
    var s := Boot(now, clockSet, store);
    BootIsFine(now, clockSet, store);
    BootLog(now, clockSet, store);
    RunOnLog(s, inputs);
    RunKeeps(s, inputs);
    FormattedIs(Run(s, inputs));
    var es := AllLogEvents(s, inputs);
    assert [] + Texts(es) == Texts(es);
    ProperIsUndisturbed(es);
    ExactlyOnce.ExactlyOnceFromPowerUp(store, es);
    AcceptedAreOffered(s.log, es);
    EnteredReadBack(s.log, es);
  }

  lemma ProperIsUndisturbed(es: seq<Event>)
    requires Proper(es)
    ensures ExactlyOnce.Undisturbed(es)
  {
  }

  lemma BootLog(now: nat, clockSet: bool, store: E2Driver.Store)
    ensures Boot(now, clockSet, store).log == LogModel.PowerUp(store) && Boot(now, clockSet, store).logged == []
  {
  }

  lemma FormattedIs(s: State)
    requires Inv(s)
    ensures s.formatted == s.logged + InFlight(s.queue, s.control.buffer)
  {
  }

  /** Cutting the power after any run of the firmware from power-up on any usable device, with any bus
      failures, torn slots, and torn blocks that were repaired since: if the tear left now is clean, the next
      start finds the newest part of the device's first log followed by the committed records, of which only
      the last may be missing, and only while its update of the control block is not done. The device is
      usable again, so the same holds from the next power-up on. */
  lemma PowerCutIsSafe(now: nat, clockSet: bool, store: E2Driver.Store, inputs: seq<Input>)
    requires ExactlyOnce.Usable(store)
    requires var s := Boot(now, clockSet, store);
             CrashSafety.CleanNow(Run(s, inputs).log, CrashSafety.PhaseAfter(CrashSafety.Starting, s.log, AllLogEvents(s, inputs)))
    ensures var s := Boot(now, clockSet, store);
            var t, es := Run(s, inputs).log, AllLogEvents(s, inputs);
            var q := CrashSafety.PhaseAfter(CrashSafety.Starting, s.log, es);
            var all, c := ExactlyOnce.Entered(s.log, es), ExactlyOnce.Commits(s.log, es);
            && ExactlyOnce.Usable(t.store) && CrashSafety.Inv(CrashSafety.Restarted(t), CrashSafety.Steady) && c <= |all|
            && CrashSafety.Live(CrashSafety.Restarted(t), CrashSafety.Steady)
                 in {Restart.LogAfter(store, all, c), Restart.LogAfter(store, all, Restart.Kept(q, c))}
            && (q.Updating? ==> c > 0)
  {
    hide Inv, Boot, Run, AllLogEvents, LogModel.Run, CrashSafety.CleanNow, CrashSafety.PhaseAfter,
         Restart.LogAfter, CrashSafety.Inv, CrashSafety.Live, ExactlyOnce.Usable;
    var s := Boot(now, clockSet, store);
    BootIsFine(now, clockSet, store);
    BootLog(now, clockSet, store);
    RunOnLog(s, inputs);
    Restart.RestartFindsCommitted(store, AllLogEvents(s, inputs));
  }

  /** Whatever the messages do, the task ring just steps once an iteration. */
  lemma {:induction false} RingTurns(s: State, inputs: seq<Input>)
    requires Inv(s)
    ensures Wf(s) && Run(s, inputs).ring == TaskRing.Steps(s.ring, |inputs|, _ => [])
    decreases |inputs|
  {
    hide Inv, Deliver, RunTask, TaskRing.Step;
    InvIsWf(s);
    if inputs != [] {
      var most, last := inputs[..|inputs| - 1], inputs[|inputs| - 1];
      RingTurns(s, most);
      RunKeeps(s, most);
      RingOfLoop(Run(s, most), last);
      TaskRing.StepsCompose(s.ring, |most|, 1, _ => []);
      assert TaskRing.Steps(s.ring, |most| + 1, _ => []) == TaskRing.Steps(TaskRing.Steps(s.ring, |most|, _ => []), 1, _ => []);
    }
  }

  lemma {:induction false} RunConcat(s: State, a: seq<Input>, b: seq<Input>)
    requires Wf(s)
    ensures Run(s, a + b) == Run(Run(s, a), b)
    ensures AllLogEvents(s, a + b) == AllLogEvents(s, a) + AllLogEvents(Run(s, a), b)
    decreases |b|
  {
    hide Wf, Loop, LogEvents;
    if b == [] {
      assert a + b == a;
    } else {
      assert (a + b)[..|a + b| - 1] == a + b[..|b| - 1];
      RunConcat(s, a, b[..|b| - 1]);
    }
  }

  /** The ring that start-up leaves, at any place of a pass. */
  ghost predicate BootRing(r: TaskRing.Ring) {
    r.entries == TASKS && r.left < 5
  }

  lemma {:induction false} RingStaysBoot(s: State, inputs: seq<Input>)
    requires Inv(s) && BootRing(s.ring)
    ensures BootRing(Run(s, inputs).ring)
    decreases |inputs|
  {
    hide Inv, Loop, BootRing, Wf;
    InvIsWf(s);
    if inputs != [] {
      var most := inputs[..|inputs| - 1];
      RingStaysBoot(s, most);
      RunKeeps(s, most);
      InvIsWf(Run(s, most));
      RingOfLoop(Run(s, most), inputs[|inputs| - 1]);
      BootRingStep(Run(s, most).ring);
    }
  }

  lemma BootRingStep(r: TaskRing.Ring)
    requires BootRing(r)
    ensures BootRing(TaskRing.Step(r, _ => []))
  {
  }

  /** In any five iterations from power-up on the controller, the logger and the display run once each, the
      keypad twice. */
  lemma FiveIterations(now: nat, clockSet: bool, store: E2Driver.Store, inputs: seq<Input>, five: seq<Input>)
    requires |five| == 5
    ensures var s := Boot(now, clockSet, store);
            && Inv(s) && BootRing(Run(s, inputs).ring) && Inv(Run(s, inputs))
            && exists ran: seq<nat> ::
                 && Run(s, inputs + five).ring.calls == Run(s, inputs).ring.calls + ran
                 && multiset(ran) == multiset{CONTROL, LOGGER, DISPLAY, KEYPAD, KEYPAD}
  {
    hide Inv, Run, TaskRing.Steps, Boot;
    var s := Boot(now, clockSet, store);
    BootIsFine(now, clockSet, store);
    BootHasRing(now, clockSet, store);
    RingStaysBoot(s, inputs);
    RunKeeps(s, inputs);
    InvIsWf(s);
    RunConcat(s, inputs, five);
    FiveTurns(Run(s, inputs), five);
  }

  lemma BootHasRing(now: nat, clockSet: bool, store: E2Driver.Store)
    ensures BootRing(Boot(now, clockSet, store).ring)
  {
  }

  lemma FiveTurns(s: State, five: seq<Input>)
    requires Inv(s) && BootRing(s.ring) && |five| == 5
    ensures Wf(s)
    ensures exists ran: seq<nat> ::
              && Run(s, five).ring.calls == s.ring.calls + ran
              && multiset(ran) == multiset{4, 3, 2, 1, 1}
  {
    hide Inv, Run, TaskRing.Steps;
    InvIsWf(s);
    RingTurns(s, five);
    TaskRing.AnyWindowIsFair(s.ring, _ => []);
    assert multiset(TASKS) == multiset{4, 3, 2, 1, 1};
  }

  lemma RingOfLoop(s: State, input: Input)
    requires Wf(s)
    ensures Loop(s, input).ring == TaskRing.Step(s.ring, _ => [])
  {
    hide TaskRing.Step, Control.HandleStep, Control.TaskStep, Display.HandleStep, Display.TaskStep, Keypad.TaskStep, TaskStep, Next;
  }
}
