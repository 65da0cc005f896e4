/** The messages between the parts of the firmware: over every run each part gets exactly what the others
    post to it, in order, and behaves as it does alone. */
module Wires {
  import opened Bytes
  import opened Messages
  import opened LogModel
  import opened Firmware
  import E2Driver
  import TaskRing
  import Control
  import ControlLaws
  import Display
  import Keypad

  // ---------- What happens during a run ----------

  /** A message is taken from the queue, with the text that is in the shared buffer then, or a task has its
      turn, with the end that a transfer of the logger has then. */
  datatype Happening =
    | Delivered(note: Note, arrival: Arrival, buffer: seq<byte>)
    | Ran(task: nat, input: Input, io: Io)

  ghost function FirstNote(s: State, at: Arrival): seq<Happening> {
    if s.queue == [] then [] else [Delivered(s.queue[0], at, s.control.buffer)]
  }

  ghost function Turn(s: State, input: Input): seq<Happening>
    requires Wf(s)
  {
    var ring := TaskRing.Step(s.ring, _ => []);
    if |ring.calls| > |s.ring.calls| then [Ran(ring.calls[|s.ring.calls|], input, IoOf(s.log, input.bus))] else []
  }

  ghost function Iteration(s: State, input: Input): seq<Happening>
    requires Wf(s)
  {
    var t := Deliver(s, input.arrival);
    FirstNote(s, input.arrival) + FirstNote(t, input.arrival) + Turn(Deliver(t, input.arrival), input)
  }

  ghost function Trace(s: State, inputs: seq<Input>): seq<Happening>
    requires Wf(s)
    decreases |inputs|
  {
    if inputs == [] then []
    else Trace(s, inputs[..|inputs| - 1]) + Iteration(Firmware.Run(s, inputs[..|inputs| - 1]), inputs[|inputs| - 1])
  }

  // ---------- Each part's share of it ----------

  ghost function PollOf(h: Happening): seq<Keypad.Poll> {
    if h.Ran? && h.task == 1 then [Keypad.Poll(h.input.reading, h.input.now)] else []
  }

  ghost function DisplayEventOf(h: Happening): seq<Display.Event> {
    match h
    case Ran(task, input, _) => if task == 2 then [Display.Loop(input.now)] else []
    case Delivered(n, _, _) =>
      if n.id == 2 then [Display.Key(Number(n.context))]
      else if n.id == 4 || n.id == 5 then [Display.Message(n.id, Number(n.context))]
      else []
  }

  ghost function ControlEventOf(h: Happening): seq<Control.Event> {
    match h
    case Ran(task, input, _) => if task == 4 then [Control.Task(input.now, input.count)] else []
    case Delivered(n, _, _) => if n.id == 7 then [Control.Enter(Number(n.context))] else []
  }

  ghost function LoggerEventOf(h: Happening): seq<LogModel.Event> {
    match h
    case Ran(task, _, io) => if task == 3 then [LogModel.Task(io)] else []
    case Delivered(n, at, buffer) =>
      if n.id == 8 then [LogModel.LogEvent(buffer, at.date, at.junk)]
      else if n.id == 9 then [LogModel.DeleteLog]
      else if n.id == 10 then [LogModel.DumpLog]
      else []
  }

  ghost function NoteOf(h: Happening): seq<Note> { if h.Delivered? then [h.note] else [] }

  ghost function Polls(hs: seq<Happening>): seq<Keypad.Poll> {
    if hs == [] then [] else Polls(hs[..|hs| - 1]) + PollOf(hs[|hs| - 1])
  }

  ghost function DisplayEvents(hs: seq<Happening>): seq<Display.Event> {
    if hs == [] then [] else DisplayEvents(hs[..|hs| - 1]) + DisplayEventOf(hs[|hs| - 1])
  }

  ghost function ControlEvents(hs: seq<Happening>): seq<Control.Event> {
    if hs == [] then [] else ControlEvents(hs[..|hs| - 1]) + ControlEventOf(hs[|hs| - 1])
  }

  ghost function LoggerEvents(hs: seq<Happening>): seq<LogModel.Event> {
    if hs == [] then [] else LoggerEvents(hs[..|hs| - 1]) + LoggerEventOf(hs[|hs| - 1])
  }

  ghost function Received(hs: seq<Happening>): seq<Note> {
    if hs == [] then [] else Received(hs[..|hs| - 1]) + NoteOf(hs[|hs| - 1])
  }

  lemma OneMore(hs: seq<Happening>, h: Happening)
    ensures Polls(hs + [h]) == Polls(hs) + PollOf(h)
    ensures DisplayEvents(hs + [h]) == DisplayEvents(hs) + DisplayEventOf(h)
    ensures ControlEvents(hs + [h]) == ControlEvents(hs) + ControlEventOf(h)
    ensures LoggerEvents(hs + [h]) == LoggerEvents(hs) + LoggerEventOf(h)
    ensures Received(hs + [h]) == Received(hs) + NoteOf(h)
  {
    assert (hs + [h])[..|hs|] == hs;
  }

  // ---------- Messages by id ----------

  /** The messages with this id. */
  function Of(ns: seq<Note>, id: nat): seq<Note> {
    if ns == [] then [] else Of(ns[..|ns| - 1], id) + if ns[|ns| - 1].id == id then [ns[|ns| - 1]] else []
  }

  lemma {:induction false} OfConcat(a: seq<Note>, b: seq<Note>, id: nat)
    ensures Of(a + b, id) == Of(a, id) + Of(b, id)
    decreases |b|
  {
    if b == [] {
      assert a + b == a;
    } else {
      assert (a + b)[..|a + b| - 1] == a + b[..|b| - 1];
      OfConcat(a, b[..|b| - 1], id);
    }
  }

  predicate Only(ns: seq<Note>, ids: set<nat>) { forall n <- ns :: n.id in ids }

  lemma {:induction false} OfNone(ns: seq<Note>, ids: set<nat>, id: nat)
    requires Only(ns, ids) && id !in ids
    ensures Of(ns, id) == []
    decreases |ns|
  {
    if ns != [] {
      OfNone(ns[..|ns| - 1], ids, id);
      assert ns[|ns| - 1] in ns;
    }
  }

  /** All that was posted, source by source. */
  function Sent(first: seq<Note>, keypad: seq<Note>, display: seq<Note>, control: seq<Note>): seq<Note> {
    first + keypad + display + control
  }

  lemma OfSent(first: seq<Note>, keypad: seq<Note>, display: seq<Note>, control: seq<Note>, id: nat)
    ensures Of(Sent(first, keypad, display, control), id) == Of(first, id) + Of(keypad, id) + Of(display, id) + Of(control, id)
  {
    OfConcat(first, keypad, id);
    OfConcat(first + keypad, display, id);
    OfConcat(first + keypad + display, control, id);
  }

  const KEYPAD_IDS: set<nat> := {1, 2}
  const DISPLAY_IDS: set<nat> := {7}
  const CONTROL_IDS: set<nat> := {5, 8, 10}

  /** What went into the queue is what came out of it and what is still in it, id by id, in order. */
  ghost predicate Carried(first: seq<Note>, keypad: seq<Note>, display: seq<Note>, control: seq<Note>, received: seq<Note>, queue: seq<Note>) {
    && Only(keypad, KEYPAD_IDS) && Only(display, DISPLAY_IDS) && Only(control, CONTROL_IDS)
    && forall id: nat :: Of(Sent(first, keypad, display, control), id) == Of(received, id) + Of(queue, id)
  }

  lemma OnlyBoth(a: seq<Note>, b: seq<Note>, ids: set<nat>)
    requires Only(a, ids) && Only(b, ids)
    ensures Only(a + b, ids)
  {
  }

  /** The one source that has messages of an id gets some more of them. */
  lemma JoinsAtEnd(f: seq<Note>, k: seq<Note>, d: seq<Note>, c: seq<Note>, x: seq<Note>, r: seq<Note>, q: seq<Note>)
    requires f + k + d + c == r + q
    ensures f + k + d + (c + x) == r + (q + x)
    ensures c == [] || x == [] ==> f + k + (d + x) + c == r + (q + x)
    ensures (d == [] && c == []) || x == [] ==> f + (k + x) + d + c == r + (q + x)
  {
    assert f + k + d + (c + x) == (f + k + d + c) + x == r + (q + x);
    if x == [] {
      assert c + x == c && d + x == d && k + x == k && q + x == q;
    } else if c == [] {
      assert f + k + (d + x) + c == (f + k + d + c) + x;
      if d == [] {
        assert f + (k + x) + d + c == (f + k + d + c) + x;
      }
    }
  }

  lemma KeypadPosts(first: seq<Note>, keypad: seq<Note>, display: seq<Note>, control: seq<Note>, received: seq<Note>, queue: seq<Note>, x: seq<Note>)
    requires Carried(first, keypad, display, control, received, queue) && Only(x, KEYPAD_IDS)
    ensures Carried(first, keypad + x, display, control, received, queue + x)
  {
    hide Of, Sent;
    OnlyBoth(keypad, x, KEYPAD_IDS);
    forall id: nat
      ensures Of(Sent(first, keypad + x, display, control), id) == Of(received, id) + Of(queue + x, id)
    {
      OfSent(first, keypad, display, control, id);
      OfSent(first, keypad + x, display, control, id);
      OfConcat(keypad, x, id);
      OfConcat(queue, x, id);
      if id in KEYPAD_IDS {
        OfNone(display, DISPLAY_IDS, id);
        OfNone(control, CONTROL_IDS, id);
      } else {
        OfNone(x, KEYPAD_IDS, id);
      }
      JoinsAtEnd(Of(first, id), Of(keypad, id), Of(display, id), Of(control, id), Of(x, id), Of(received, id), Of(queue, id));
    }
  }

  lemma DisplayPosts(first: seq<Note>, keypad: seq<Note>, display: seq<Note>, control: seq<Note>, received: seq<Note>, queue: seq<Note>, x: seq<Note>)
    requires Carried(first, keypad, display, control, received, queue) && Only(x, DISPLAY_IDS)
    ensures Carried(first, keypad, display + x, control, received, queue + x)
  {
    hide Of, Sent;
    OnlyBoth(display, x, DISPLAY_IDS);
    forall id: nat
      ensures Of(Sent(first, keypad, display + x, control), id) == Of(received, id) + Of(queue + x, id)
    {
      OfSent(first, keypad, display, control, id);
      OfSent(first, keypad, display + x, control, id);
      OfConcat(display, x, id);
      OfConcat(queue, x, id);
      if id in DISPLAY_IDS {
        OfNone(control, CONTROL_IDS, id);
      } else {
        OfNone(x, DISPLAY_IDS, id);
      }
      JoinsAtEnd(Of(first, id), Of(keypad, id), Of(display, id), Of(control, id), Of(x, id), Of(received, id), Of(queue, id));
    }
  }

  lemma ControlPosts(first: seq<Note>, keypad: seq<Note>, display: seq<Note>, control: seq<Note>, received: seq<Note>, queue: seq<Note>, x: seq<Note>)
    requires Carried(first, keypad, display, control, received, queue) && Only(x, CONTROL_IDS)
    ensures Carried(first, keypad, display, control + x, received, queue + x)
  {
    hide Of, Sent;
    OnlyBoth(control, x, CONTROL_IDS);
    forall id: nat
      ensures Of(Sent(first, keypad, display, control + x), id) == Of(received, id) + Of(queue + x, id)
    {
      OfSent(first, keypad, display, control, id);
      OfSent(first, keypad, display, control + x, id);
      OfConcat(control, x, id);
      OfConcat(queue, x, id);
      JoinsAtEnd(Of(first, id), Of(keypad, id), Of(display, id), Of(control, id), Of(x, id), Of(received, id), Of(queue, id));
    }
  }

  lemma TakesFirst(first: seq<Note>, keypad: seq<Note>, display: seq<Note>, control: seq<Note>, received: seq<Note>, queue: seq<Note>)
    requires Carried(first, keypad, display, control, received, queue) && queue != []
    ensures Carried(first, keypad, display, control, received + [queue[0]], queue[1..])
  {
    hide Of, Sent;
    forall id: nat
      ensures Of(Sent(first, keypad, display, control), id) == Of(received + [queue[0]], id) + Of(queue[1..], id)
    {
      OfConcat(received, [queue[0]], id);
      OfConcat([queue[0]], queue[1..], id);
      assert [queue[0]] + queue[1..] == queue;
      assert Of(received, id) + Of([queue[0]], id) + Of(queue[1..], id) == Of(received, id) + (Of([queue[0]], id) + Of(queue[1..], id));
    }
  }

  // ---------- The invariant of a run ----------

  /** Every part is where its own share of the history takes it, and the messages are carried. */
  ghost predicate Matches(s0: State, hs: seq<Happening>, s: State) {
    && Wf(s0)
    && s.keypad == Keypad.Run(s0.keypad, Polls(hs))
    && s.display == Display.Run(s0.display, DisplayEvents(hs))
    && s.control == Control.Run(s0.control, ControlEvents(hs))
    && s.log == LogModel.Run(s0.log, LoggerEvents(hs))
    && s.formatted == s0.formatted + ControlLaws.Texts(s0.control, ControlEvents(hs))
    && Carried(s0.queue, Keypad.Posts(s0.keypad, Polls(hs)), Display.Posts(s0.display, DisplayEvents(hs)),
               ControlLaws.Posts(s0.control, ControlEvents(hs)), Received(hs), s.queue)
  }

  lemma KeypadSnoc(k: Keypad.State, polls: seq<Keypad.Poll>, p: Keypad.Poll)
    ensures Keypad.Run(k, polls + [p]) == Keypad.TaskStep(Keypad.Run(k, polls), p.reading, p.now).0
    ensures Keypad.Posts(k, polls + [p]) == Keypad.Posts(k, polls) + Keypad.TaskStep(Keypad.Run(k, polls), p.reading, p.now).1
  {
    assert (polls + [p])[..|polls|] == polls;
  }

  lemma DisplaySnoc(d: Display.State, es: seq<Display.Event>, e: Display.Event)
    requires Display.CursorOk(d)
    ensures Display.Run(d, es + [e]) == Display.Next(Display.Run(d, es), e).0
    ensures Display.Posts(d, es + [e]) == Display.Posts(d, es) + Display.Next(Display.Run(d, es), e).1
  {
    assert (es + [e])[..|es|] == es;
  }

  lemma ControlSnoc(c: Control.State, es: seq<Control.Event>, e: Control.Event)
    ensures Control.Run(c, es + [e]) == Control.Next(Control.Run(c, es), e).0
    ensures ControlLaws.Posts(c, es + [e]) == ControlLaws.Posts(c, es) + Control.Next(Control.Run(c, es), e).1
    ensures ControlLaws.Texts(c, es + [e]) == ControlLaws.Texts(c, es)
              + if Note(8, LogBuffer) in Control.Next(Control.Run(c, es), e).1 then [Control.Run(c, es + [e]).buffer] else []
  {
    assert (es + [e])[..|es|] == es;
  }

  lemma KeypadIds(k: Keypad.State, reading: Keypad.Port, now: nat)
    ensures Only(Keypad.TaskStep(k, reading, now).1, KEYPAD_IDS)
  {
    hide Keypad.KeyOf;
  }

  lemma DisplayIds(d: Display.State, e: Display.Event)
    requires Display.CursorOk(d)
    ensures Only(Display.Next(d, e).1, DISPLAY_IDS)
    ensures !e.Loop? ==> Display.Next(d, e).1 == []
  {
  }

  lemma LoggerSnoc(l: Log, es: seq<LogModel.Event>, e: LogModel.Event)
    requires WriterHasMessage(l)
    ensures LogModel.Run(l, es + [e]) == LogModel.Next(LogModel.Run(l, es), e)
  {
    assert (es + [e])[..|es|] == es;
  }

  lemma ControlIds(c: Control.State, e: Control.Event)
    ensures Only(Control.Next(c, e).1, CONTROL_IDS)
  {
    hide Control.LogText, Control.Adjusted;
  }

  // ---------- One happening ----------

  lemma SpeedIsHandled(s: State, at: Arrival)
    requires Wf(s) && s.queue != [] && s.queue[0].id == 7
    ensures Deliver(s, at) == FromControl(s.(queue := s.queue[1..]), Control.HandleStep(s.control, 7, Number(s.queue[0].context)))
  {
    hide Control.HandleStep, Display.HandleStep, LogModel.Next;
  }

  /** The controller acts on an event, with this queue before it. */
  lemma ControlActs(s0: State, hs: seq<Happening>, s: State, h: Happening, e: Control.Event, queue: seq<Note>)
    requires Wf(s) && Matches(s0, hs, s)
    requires PollOf(h) == [] && DisplayEventOf(h) == [] && LoggerEventOf(h) == [] && ControlEventOf(h) == [e]
    requires Carried(s0.queue, Keypad.Posts(s0.keypad, Polls(hs)), Display.Posts(s0.display, DisplayEvents(hs)),
                     ControlLaws.Posts(s0.control, ControlEvents(hs)), Received(hs) + NoteOf(h), queue)
    ensures Matches(s0, hs + [h], FromControl(s.(queue := queue), Control.Next(s.control, e)))
  {
    hide Carried, Control.Next, Keypad.Run, Keypad.Posts, Display.Run, Display.Posts, Control.Run, ControlLaws.Posts, ControlLaws.Texts, LogModel.Run,
         Polls, DisplayEvents, ControlEvents, LoggerEvents, Received, PollOf, DisplayEventOf, ControlEventOf, LoggerEventOf, NoteOf;
    OneMore(hs, h);
    ControlSnoc(s0.control, ControlEvents(hs), e);
    ControlIds(s.control, e);
    ControlPosts(s0.queue, Keypad.Posts(s0.keypad, Polls(hs)), Display.Posts(s0.display, DisplayEvents(hs)),
                 ControlLaws.Posts(s0.control, ControlEvents(hs)), Received(hs) + NoteOf(h), queue, Control.Next(s.control, e).1);
    assert LoggerEvents(hs) + [] == LoggerEvents(hs);
    assert Polls(hs) + [] == Polls(hs) && DisplayEvents(hs) + [] == DisplayEvents(hs);
  }

  lemma SpeedDelivered(s0: State, hs: seq<Happening>, s: State, at: Arrival)
    requires Wf(s) && Matches(s0, hs, s) && s.queue != [] && s.queue[0].id == 7
    ensures Matches(s0, hs + [Delivered(s.queue[0], at, s.control.buffer)], Deliver(s, at))
  {
    hide Carried, Deliver, FromControl, Control.HandleStep, Keypad.Run, Keypad.Posts, Display.Run, Display.Posts, Control.Run, ControlLaws.Posts,
         ControlLaws.Texts, LogModel.Run, Polls, DisplayEvents, ControlEvents, LoggerEvents, Received;
    TakesFirst(s0.queue, Keypad.Posts(s0.keypad, Polls(hs)), Display.Posts(s0.display, DisplayEvents(hs)),
               ControlLaws.Posts(s0.control, ControlEvents(hs)), Received(hs), s.queue);
    SpeedIsHandled(s, at);
    ControlActs(s0, hs, s, Delivered(s.queue[0], at, s.control.buffer), Control.Enter(Number(s.queue[0].context)), s.queue[1..]);
  }

  lemma DisplayDelivered(s0: State, hs: seq<Happening>, s: State, at: Arrival)
    requires Wf(s) && Matches(s0, hs, s) && s.queue != [] && s.queue[0].id in {2, 4, 5}
    ensures Matches(s0, hs + [Delivered(s.queue[0], at, s.control.buffer)], Deliver(s, at))
  {
    hide Carried, Display.HandleStep, Keypad.Run, Keypad.Posts, Display.Run, Display.Posts, Control.Run, ControlLaws.Posts, ControlLaws.Texts, LogModel.Run, IoOf;
    var n, w := s.queue[0], Number(s.queue[0].context);
    var e := if n.id == 2 then Display.Key(w) else Display.Message(n.id, w);
    OneMore(hs, Delivered(n, at, s.control.buffer));
    DisplaySnoc(s0.display, DisplayEvents(hs), e);
    DisplayIds(s.display, e);
    var kp, dp, cp := Keypad.Posts(s0.keypad, Polls(hs)), Display.Posts(s0.display, DisplayEvents(hs)), ControlLaws.Posts(s0.control, ControlEvents(hs));
    TakesFirst(s0.queue, kp, dp, cp, Received(hs), s.queue);
    assert dp + [] == dp;
    assert LoggerEvents(hs) + [] == LoggerEvents(hs);
    assert Polls(hs) + [] == Polls(hs) && ControlEvents(hs) + [] == ControlEvents(hs);
    assert Deliver(s, at) == s.(queue := s.queue[1..], display := Display.HandleStep(s.display, n.id, w));
  }

  lemma OtherDelivered(s0: State, hs: seq<Happening>, s: State, at: Arrival)
    requires Wf(s) && Matches(s0, hs, s) && s.queue != [] && s.queue[0].id !in {2, 4, 5, 7}
    ensures Matches(s0, hs + [Delivered(s.queue[0], at, s.control.buffer)], Deliver(s, at))
  {
    hide Carried, Keypad.Run, Keypad.Posts, Display.Run, Display.Posts, Control.Run, ControlLaws.Posts, ControlLaws.Texts, LogModel.Run, LogModel.Next;
    var n := s.queue[0];
    var h := Delivered(n, at, s.control.buffer);
    OneMore(hs, h);
    TakesFirst(s0.queue, Keypad.Posts(s0.keypad, Polls(hs)), Display.Posts(s0.display, DisplayEvents(hs)),
               ControlLaws.Posts(s0.control, ControlEvents(hs)), Received(hs), s.queue);
    assert Polls(hs) + [] == Polls(hs) && DisplayEvents(hs) + [] == DisplayEvents(hs) && ControlEvents(hs) + [] == ControlEvents(hs);
    var t := Deliver(s, at);
    if LoggerEventOf(h) == [] {
      assert LoggerEvents(hs) + [] == LoggerEvents(hs);
      assert t.log == s.log;
    } else {
      LoggerSnoc(s0.log, LoggerEvents(hs), LoggerEventOf(h)[0]);
      assert LoggerEventOf(h) == [LoggerEventOf(h)[0]];
      assert t.log == LogModel.Next(s.log, LoggerEventOf(h)[0]);
    }
    assert t.queue == s.queue[1..] && t.keypad == s.keypad && t.display == s.display && t.control == s.control && t.formatted == s.formatted;
  }

  lemma NoteDelivered(s0: State, hs: seq<Happening>, s: State, at: Arrival)
    requires Wf(s) && Matches(s0, hs, s)
    ensures Matches(s0, hs + FirstNote(s, at), Deliver(s, at))
  {
    hide Matches;
    if s.queue == [] {
      assert hs + [] == hs;
    } else if s.queue[0].id == 7 {
      SpeedDelivered(s0, hs, s, at);
    } else if s.queue[0].id in {2, 4, 5} {
      DisplayDelivered(s0, hs, s, at);
    } else {
      OtherDelivered(s0, hs, s, at);
    }
  }

  lemma ControlRan(s0: State, hs: seq<Happening>, s: State, input: Input)
    requires Wf(s) && Matches(s0, hs, s)
    ensures Matches(s0, hs + [Ran(4, input, IoOf(s.log, input.bus))], RunTask(s, 4, input))
  {
    hide Carried, FromControl, Control.TaskStep, Keypad.Run, Keypad.Posts, Display.Run, Display.Posts, Control.Run, ControlLaws.Posts,
         ControlLaws.Texts, LogModel.Run, IoOf, Polls, DisplayEvents, ControlEvents, LoggerEvents, Received;
    assert Received(hs) + [] == Received(hs);
    ControlActs(s0, hs, s, Ran(4, input, IoOf(s.log, input.bus)), Control.Task(input.now, input.count), s.queue);
  }

  lemma DisplayRan(s0: State, hs: seq<Happening>, s: State, input: Input)
    requires Wf(s) && Matches(s0, hs, s)
    ensures Matches(s0, hs + [Ran(2, input, IoOf(s.log, input.bus))], RunTask(s, 2, input))
  {
    hide Carried, Display.TaskStep, Keypad.Run, Keypad.Posts, Display.Run, Display.Posts, Control.Run, ControlLaws.Posts, ControlLaws.Texts, LogModel.Run, IoOf;
    var e := Display.Loop(input.now);
    OneMore(hs, Ran(2, input, IoOf(s.log, input.bus)));
    DisplaySnoc(s0.display, DisplayEvents(hs), e);
    DisplayIds(s.display, e);
    DisplayPosts(s0.queue, Keypad.Posts(s0.keypad, Polls(hs)), Display.Posts(s0.display, DisplayEvents(hs)),
                 ControlLaws.Posts(s0.control, ControlEvents(hs)), Received(hs), s.queue, Display.TaskStep(s.display, e.now).1);
    assert LoggerEvents(hs) + [] == LoggerEvents(hs);
    assert Polls(hs) + [] == Polls(hs) && ControlEvents(hs) + [] == ControlEvents(hs) && Received(hs) + [] == Received(hs);
  }

  lemma KeypadRan(s0: State, hs: seq<Happening>, s: State, input: Input)
    requires Wf(s) && Matches(s0, hs, s)
    ensures Matches(s0, hs + [Ran(1, input, IoOf(s.log, input.bus))], RunTask(s, 1, input))
  {
    hide Carried, Keypad.TaskStep, Keypad.Run, Keypad.Posts, Display.Run, Display.Posts, Control.Run, ControlLaws.Posts, ControlLaws.Texts, LogModel.Run, IoOf;
    var p := Keypad.Poll(input.reading, input.now);
    OneMore(hs, Ran(1, input, IoOf(s.log, input.bus)));
    KeypadSnoc(s0.keypad, Polls(hs), p);
    KeypadIds(s.keypad, p.reading, p.now);
    KeypadPosts(s0.queue, Keypad.Posts(s0.keypad, Polls(hs)), Display.Posts(s0.display, DisplayEvents(hs)),
                ControlLaws.Posts(s0.control, ControlEvents(hs)), Received(hs), s.queue, Keypad.TaskStep(s.keypad, p.reading, p.now).1);
    assert LoggerEvents(hs) + [] == LoggerEvents(hs);
    assert DisplayEvents(hs) + [] == DisplayEvents(hs) && ControlEvents(hs) + [] == ControlEvents(hs) && Received(hs) + [] == Received(hs);
  }

  lemma LoggerRan(s0: State, hs: seq<Happening>, s: State, input: Input)
    requires Wf(s) && Matches(s0, hs, s)
    ensures Matches(s0, hs + [Ran(3, input, IoOf(s.log, input.bus))], RunTask(s, 3, input))
  {
    hide Carried, Keypad.Run, Keypad.Posts, Display.Run, Display.Posts, Control.Run, ControlLaws.Posts, ControlLaws.Texts, LogModel.Run, IoOf, TaskStep;
    OneMore(hs, Ran(3, input, IoOf(s.log, input.bus)));
    LoggerSnoc(s0.log, LoggerEvents(hs), LogModel.Task(IoOf(s.log, input.bus)));
    assert Polls(hs) + [] == Polls(hs) && DisplayEvents(hs) + [] == DisplayEvents(hs);
    assert ControlEvents(hs) + [] == ControlEvents(hs) && Received(hs) + [] == Received(hs);
  }

  lemma OtherRan(s0: State, hs: seq<Happening>, s: State, task: nat, input: Input)
    requires Wf(s) && Matches(s0, hs, s) && task !in {1, 2, 3, 4}
    ensures Matches(s0, hs + [Ran(task, input, IoOf(s.log, input.bus))], RunTask(s, task, input))
  {
    hide Carried, Keypad.Run, Keypad.Posts, Display.Run, Display.Posts, Control.Run, ControlLaws.Posts, ControlLaws.Texts, LogModel.Run, IoOf, TaskStep;
    OneMore(hs, Ran(task, input, IoOf(s.log, input.bus)));
    assert LoggerEvents(hs) + [] == LoggerEvents(hs);
    assert Polls(hs) + [] == Polls(hs) && DisplayEvents(hs) + [] == DisplayEvents(hs);
    assert ControlEvents(hs) + [] == ControlEvents(hs) && Received(hs) + [] == Received(hs);
  }

  lemma TaskRan(s0: State, hs: seq<Happening>, s: State, task: nat, input: Input)
    requires Wf(s) && Matches(s0, hs, s)
    ensures Matches(s0, hs + [Ran(task, input, IoOf(s.log, input.bus))], RunTask(s, task, input))
  {
    hide Matches, RunTask;
    if task == 4 {
      ControlRan(s0, hs, s, input);
    } else if task == 2 {
      DisplayRan(s0, hs, s, input);
    } else if task == 1 {
      KeypadRan(s0, hs, s, input);
    } else if task == 3 {
      LoggerRan(s0, hs, s, input);
    } else {
      OtherRan(s0, hs, s, task, input);
    }
  }

  lemma RingIsNoPart(s0: State, hs: seq<Happening>, s: State, ring: TaskRing.Ring)
    requires Matches(s0, hs, s)
    ensures Matches(s0, hs, s.(ring := ring))
  {
    hide Carried, Keypad.Run, Keypad.Posts, Display.Run, Display.Posts, Control.Run, ControlLaws.Posts, ControlLaws.Texts, LogModel.Run, IoOf;
  }

  lemma TurnTaken(s0: State, hs: seq<Happening>, s: State, input: Input)
    requires Wf(s) && Matches(s0, hs, s)
    ensures Matches(s0, hs + Turn(s, input), Schedule(s, input))
  {
    hide Matches, RunTask, TaskRing.Step;
    var ring := TaskRing.Step(s.ring, _ => []);
    RingIsNoPart(s0, hs, s, ring);
    if |ring.calls| > |s.ring.calls| {
      TaskRan(s0, hs, s.(ring := ring), ring.calls[|s.ring.calls|], input);
    } else {
      assert hs + [] == hs;
    }
  }

  lemma IterationMatches(s0: State, hs: seq<Happening>, s: State, input: Input)
    requires Wf(s) && Matches(s0, hs, s)
    ensures Matches(s0, hs + Iteration(s, input), Firmware.Loop(s, input))
  {
    hide Matches, Deliver, Schedule, Turn, FirstNote;
    var t := Deliver(s, input.arrival);
    var u := Deliver(t, input.arrival);
    NoteDelivered(s0, hs, s, input.arrival);
    NoteDelivered(s0, hs + FirstNote(s, input.arrival), t, input.arrival);
    TurnTaken(s0, hs + FirstNote(s, input.arrival) + FirstNote(t, input.arrival), u, input);
    assert hs + FirstNote(s, input.arrival) + FirstNote(t, input.arrival) + Turn(u, input) == hs + (FirstNote(s, input.arrival) + FirstNote(t, input.arrival) + Turn(u, input));
  }

  lemma NothingYet(s0: State)
    requires Wf(s0)
    ensures Matches(s0, [], s0)
  {
    assert s0.formatted + [] == s0.formatted;
    assert Sent(s0.queue, [], [], []) == s0.queue;
    forall id: nat
      ensures Of(s0.queue, id) == Of([], id) + Of(s0.queue, id)
    {
    }
  }

  /** Over every run: keypad, display and controller are where their own polls, messages and turns take them,
      the texts are those of the controller, and what is posted to each id, by start-up, keypad, display or
      controller, is what is delivered under this id, in order, and what is still queued. */
  lemma {:induction false} RunMatches(s0: State, inputs: seq<Input>)
    requires Wf(s0)
    ensures Matches(s0, Trace(s0, inputs), Firmware.Run(s0, inputs))
    decreases |inputs|
  {
    hide Matches, Firmware.Loop, Iteration, Wf;
    if inputs == [] {
      NothingYet(s0);
    } else {
      var most := inputs[..|inputs| - 1];
      RunMatches(s0, most);
      IterationMatches(s0, Trace(s0, most), Firmware.Run(s0, most), inputs[|inputs| - 1]);
    }
  }

  // ---------- The logger's share ----------

  lemma {:induction false} LoggerConcat(a: seq<Happening>, b: seq<Happening>)
    ensures LoggerEvents(a + b) == LoggerEvents(a) + LoggerEvents(b)
    decreases |b|
  {
    hide LoggerEventOf;
    if b == [] {
      assert a + b == a;
    } else {
      assert (a + b)[..|a + b| - 1] == a + b[..|b| - 1];
      LoggerConcat(a, b[..|b| - 1]);
    }
  }

  lemma OneHappening(h: Happening)
    ensures LoggerEvents([h]) == LoggerEventOf(h) && LoggerEvents([]) == []
  {
    assert [h][..0] == [];
  }

  lemma FirstNoteLogs(s: State, at: Arrival)
    ensures LoggerEvents(FirstNote(s, at)) == FirstEvent(s, at)
  {
    if s.queue == [] {
    } else {
      OneHappening(FirstNote(s, at)[0]);
    }
  }

  lemma TurnLogs(s: State, input: Input)
    requires Wf(s)
    ensures LoggerEvents(Turn(s, input)) == LogEventsOfTask(s, input)
  {
    hide TaskRing.Step, IoOf;
    if Turn(s, input) != [] {
      OneHappening(Turn(s, input)[0]);
    }
  }

  /** The events that the laws of the logger are about are its share of what happens. */
  lemma {:induction false} LogEventsAreTraced(s: State, inputs: seq<Input>)
    requires Wf(s)
    ensures AllLogEvents(s, inputs) == LoggerEvents(Trace(s, inputs))
    decreases |inputs|
  {
    hide Wf, Deliver, Firmware.Run, FirstNote, FirstEvent, Turn, LogEventsOfTask, LoggerEvents;
    if inputs == [] {
      assert LoggerEvents([]) == [] by { NoHappening(); }
    } else {
      var most, last := inputs[..|inputs| - 1], inputs[|inputs| - 1];
      var r := Firmware.Run(s, most);
      var t := Deliver(r, last.arrival);
      var u := Deliver(t, last.arrival);
      LogEventsAreTraced(s, most);
      FirstNoteLogs(r, last.arrival);
      FirstNoteLogs(t, last.arrival);
      TurnLogs(u, last);
      LoggerConcat(FirstNote(r, last.arrival), FirstNote(t, last.arrival));
      LoggerConcat(FirstNote(r, last.arrival) + FirstNote(t, last.arrival), Turn(u, last));
      LoggerConcat(Trace(s, most), Iteration(r, last));
    }
  }

  lemma NoHappening()
    ensures LoggerEvents([]) == []
  {
  }
}
