/** From the keypad to the motor and the log: what the parts do together, over every run from power-up. */
module EndToEnd {
  import opened Bytes
  import opened Messages
  import opened LogModel
  import opened Firmware
  import opened Wires
  import E2Driver
  import Control
  import ControlLaws
  import Display
  import DisplayLaws
  import TaskRing
  import Keypad

  // ---------- What messages carry ----------

  function Values(ns: seq<Note>): seq<u16> {
    if ns == [] then [] else Values(ns[..|ns| - 1]) + [Number(ns[|ns| - 1].context)]
  }

  function KeyValues(es: seq<Display.Event>): seq<u16> {
    if es == [] then []
    else KeyValues(es[..|es| - 1]) + if es[|es| - 1].Key? then [es[|es| - 1].w] else []
  }

  function SpeedValues(es: seq<Control.Event>): seq<u16> {
    if es == [] then []
    else SpeedValues(es[..|es| - 1]) + if es[|es| - 1].Enter? then [es[|es| - 1].w] else []
  }

  lemma {:induction false} ValuesConcat(a: seq<Note>, b: seq<Note>)
    ensures Values(a + b) == Values(a) + Values(b)
    decreases |b|
  {
    if b == [] {
      assert a + b == a;
    } else {
      assert (a + b)[..|a + b| - 1] == a + b[..|b| - 1];
      ValuesConcat(a, b[..|b| - 1]);
    }
  }

  lemma {:induction false} KeysConcat(a: seq<Display.Event>, b: seq<Display.Event>)
    ensures KeyValues(a + b) == KeyValues(a) + KeyValues(b)
    decreases |b|
  {
    if b == [] {
      assert a + b == a;
    } else {
      assert (a + b)[..|a + b| - 1] == a + b[..|b| - 1];
      KeysConcat(a, b[..|b| - 1]);
    }
  }

  lemma OneValue(n: Note)
    ensures Values([n]) == [Number(n.context)]
    ensures forall id: nat :: Of([n], id) == if n.id == id then [n] else []
  {
    assert [n][..0] == [];
  }

  /** The display is handed the key messages, the controller the speed messages, that the queue delivers. */
  lemma {:induction false} SharesAreDeliveries(hs: seq<Happening>)
    ensures KeyValues(DisplayEvents(hs)) == Values(Of(Received(hs), 2))
    ensures SpeedValues(ControlEvents(hs)) == Values(Of(Received(hs), 7))
    decreases |hs|
  {
    hide Of, Values, KeyValues, SpeedValues;
    if hs == [] {
      NoShares();
    } else {
      var most, h := hs[..|hs| - 1], hs[|hs| - 1];
      SharesAreDeliveries(most);
      ShareOf(h);
      KeysConcat(DisplayEvents(most), DisplayEventOf(h));
      SpeedsConcat(ControlEvents(most), ControlEventOf(h));
      OfConcat(Received(most), NoteOf(h), 2);
      OfConcat(Received(most), NoteOf(h), 7);
      ValuesConcat(Of(Received(most), 2), Of(NoteOf(h), 2));
      ValuesConcat(Of(Received(most), 7), Of(NoteOf(h), 7));
    }
  }

  lemma NoShares()
    ensures KeyValues([]) == [] && SpeedValues([]) == [] && Values([]) == [] && forall id: nat :: Of([], id) == []
  {
  }

  lemma ShareOf(h: Happening)
    ensures KeyValues(DisplayEventOf(h)) == Values(Of(NoteOf(h), 2))
    ensures SpeedValues(ControlEventOf(h)) == Values(Of(NoteOf(h), 7))
  {
    NoShares();
    if h.Delivered? {
      OneValue(h.note);
      assert forall e: Display.Event :: [e][..0] == [];
      assert forall e: Control.Event :: [e][..0] == [];
    } else {
      assert forall e: Display.Event :: [e][..0] == [];
      assert forall e: Control.Event :: [e][..0] == [];
    }
  }

  lemma {:induction false} SpeedsConcat(a: seq<Control.Event>, b: seq<Control.Event>)
    ensures SpeedValues(a + b) == SpeedValues(a) + SpeedValues(b)
    decreases |b|
  {
    if b == [] {
      assert a + b == a;
    } else {
      assert (a + b)[..|a + b| - 1] == a + b[..|b| - 1];
      SpeedsConcat(a, b[..|b| - 1]);
    }
  }

  // ---------- Keys and speeds arrive ----------

  lemma {:induction false} OfAll(ns: seq<Note>, id: nat)
    requires Only(ns, {id})
    ensures Of(ns, id) == ns
    decreases |ns|
  {
    if ns != [] {
      assert ns[|ns| - 1] in ns;
      OfAll(ns[..|ns| - 1], id);
      assert ns[..|ns| - 1] + [ns[|ns| - 1]] == ns;
    }
  }

  /** What an id carries from its sources to its receiver and the queue. */
  lemma CarriedById(s0: State, hs: seq<Happening>, s: State, id: nat)
    requires Matches(s0, hs, s)
    ensures Of(s0.queue, id) + Of(Keypad.Posts(s0.keypad, Polls(hs)), id) + Of(Display.Posts(s0.display, DisplayEvents(hs)), id)
              + Of(ControlLaws.Posts(s0.control, ControlEvents(hs)), id)
         == Of(Received(hs), id) + Of(s.queue, id)
    ensures id !in KEYPAD_IDS ==> Of(Keypad.Posts(s0.keypad, Polls(hs)), id) == []
    ensures id !in DISPLAY_IDS ==> Of(Display.Posts(s0.display, DisplayEvents(hs)), id) == []
    ensures id !in CONTROL_IDS ==> Of(ControlLaws.Posts(s0.control, ControlEvents(hs)), id) == []
    ensures id == 7 ==> Of(Display.Posts(s0.display, DisplayEvents(hs)), id) == Display.Posts(s0.display, DisplayEvents(hs))
  {
    hide Of, Sent, Keypad.Posts, Display.Posts, ControlLaws.Posts;
    var kp, dp, cp := Keypad.Posts(s0.keypad, Polls(hs)), Display.Posts(s0.display, DisplayEvents(hs)), ControlLaws.Posts(s0.control, ControlEvents(hs));
    OfSent(s0.queue, kp, dp, cp, id);
    if id !in KEYPAD_IDS { OfNone(kp, KEYPAD_IDS, id); }
    if id !in DISPLAY_IDS { OfNone(dp, DISPLAY_IDS, id); }
    if id !in CONTROL_IDS { OfNone(cp, CONTROL_IDS, id); }
    if id == 7 { OfAll(dp, 7); }
  }

  /** Start-up posts a blank and, if the clock was set, that it is complete. */
  lemma BootPosts(now: nat, clockSet: bool, store: E2Driver.Store, id: nat)
    ensures Of(Boot(now, clockSet, store).queue, id) ==
              if id == 1 then [Note(1, Value(255))]
              else if id == 4 && clockSet then [Note(4, Value(0))]
              else []
  {
    var a, b := Note(1, Value(255)), Note(4, Value(0));
    OneValue(a);
    OneValue(b);
    OfConcat([a], [b], id);
    OfConcat([a], [], id);
  }

  /** For all runs from power-up: the keys that reach the display are those the keypad posted, in order, up to
      those still queued; and the speeds that reach the controller are those the display posted. */
  lemma KeysAndSpeedsArrive(now: nat, clockSet: bool, store: E2Driver.Store, inputs: seq<Input>)
    ensures var s0 := Boot(now, clockSet, store);
            var t, hs := Firmware.Run(s0, inputs), Trace(s0, inputs);
            && Wf(s0) && Matches(s0, hs, t)
            && Values(Of(Keypad.Posts(s0.keypad, Polls(hs)), 2)) == KeyValues(DisplayEvents(hs)) + Values(Of(t.queue, 2))
            && Values(Display.Posts(s0.display, DisplayEvents(hs))) == SpeedValues(ControlEvents(hs)) + Values(Of(t.queue, 7))
  {
    hide Of, Values, KeyValues, SpeedValues, Firmware.Run, Trace, Matches, Boot, Inv, Keypad.Posts, Display.Posts, ControlLaws.Posts;
    var s0 := Boot(now, clockSet, store);
    BootIsFine(now, clockSet, store);
    InvIsWf(s0);
    var t, hs := Firmware.Run(s0, inputs), Trace(s0, inputs);
    RunMatches(s0, inputs);
    CarriedById(s0, hs, t, 2);
    CarriedById(s0, hs, t, 7);
    BootPosts(now, clockSet, store, 2);
    BootPosts(now, clockSet, store, 7);
    SharesAreDeliveries(hs);
    ValuesConcat(Of(Received(hs), 2), Of(t.queue, 2));
    ValuesConcat(Of(Received(hs), 7), Of(t.queue, 7));
    EmptyEnds(Of(Keypad.Posts(s0.keypad, Polls(hs)), 2));
    EmptyEnds(Display.Posts(s0.display, DisplayEvents(hs)));
  }

  lemma EmptyEnds(a: seq<Note>)
    ensures [] + a + [] + [] == a && [] + [] + a + [] == a
  {
  }

  /** The controller's demand is the speed that reached it last. */
  lemma {:induction false} DemandIsLast(c: Control.State, es: seq<Control.Event>)
    requires c.demand == 0
    ensures Control.Run(c, es).demand == ControlLaws.LastSpeed(es)
    ensures ControlLaws.LastSpeed(es) == if SpeedValues(es) == [] then 0 else SpeedValues(es)[|SpeedValues(es)| - 1]
    decreases |es|
  {
    hide Control.LogText, Control.Adjusted;
    if es != [] {
      DemandIsLast(c, es[..|es| - 1]);
    }
  }

  // ---------- A typed speed ----------

  /** The messages and turns of an entry, as the display sees them. */
  function Entry(first: Display.Stroke, strokes: seq<Display.Stroke>, after: seq<Display.Event>): seq<Display.Event> {
    [Display.Key(first.key)] + first.rest + Display.Events(strokes) + ([Display.Key(11)] + after)
  }

  /** The number that the typed digits make, padded with zeros on the right. */
  ghost function Typed(first: Display.Stroke, strokes: seq<Display.Stroke>): u16
    requires Display.IsStack(Display.Pushes([first.key], strokes))
  {
    Display.Entered(Display.Pushes([first.key], strokes))
  }

  lemma StackOf(d: Display.State, first: Display.Stroke, strokes: seq<Display.Stroke>)
    requires first.key < 10 && forall s <- strokes :: Display.Consumed(s)
    ensures Display.IsStack(Display.Pushes([first.key], strokes))
    decreases |strokes|
  {
    if strokes != [] {
      StackOf(d, first, strokes[..|strokes| - 1]);
    }
  }

  /** From the keypad to the motor: after any run from power-up whose last messages to the display are an entry,
      begun while no entry is open and with each key consumed before the next, and with nothing left in the
      queue, the keys of the entry are the last ones that the keypad posted; if they make 0 or a speed from 50
      to 340, that is the controller's demand, and otherwise the demand is what it was before the entry. */
  lemma TypedSpeedIsDemanded(now: nat, clockSet: bool, store: E2Driver.Store, inputs: seq<Input>,
                             before: seq<Display.Event>, first: Display.Stroke, strokes: seq<Display.Stroke>, after: seq<Display.Event>)
    requires var s0 := Boot(now, clockSet, store);
             && Wf(s0)
             && DisplayEvents(Trace(s0, inputs)) == before + Entry(first, strokes, after)
             && Firmware.Run(s0, inputs).queue == []
             && Display.Needed(Display.Run(s0.display, before).mode) > 0
             && Display.Needed(Display.Run(s0.display, before).mode) <= Display.Loops(first.rest)
    requires first.key < 10 && Display.AllQuiet(first.rest)
    requires forall s <- strokes :: Display.Consumed(s)
    requires Display.AllQuiet(after) && 2 <= Display.Loops(after)
    ensures Display.IsStack(Display.Pushes([first.key], strokes))
    ensures var s0, speed := Boot(now, clockSet, store), Typed(first, strokes);
            && Values(Of(Keypad.Posts(s0.keypad, Polls(Trace(s0, inputs))), 2))
                 == KeyValues(before) + KeyValues(Entry(first, strokes, after))
            && Firmware.Run(s0, inputs).control.demand ==
                 if speed == 0 || 50 <= speed <= 340 then speed else LastOf(Values(Display.Posts(s0.display, before)))
  {
    hide Of, Values, KeyValues, SpeedValues, Firmware.Run, Trace, Boot, Keypad.Posts, Keypad.Run, Display.Posts, Display.Run, ControlLaws.Posts,
         Control.Run, Carried, Display.Events, Display.Loops, Display.Consumed, Display.Pushes, ControlLaws.Texts, Display.Entered, Display.Verdict, Wf, Display.Needed, Matches;
    var s0 := Boot(now, clockSet, store);
    BootIsIdle(now, clockSet, store);
    var hs := Trace(s0, inputs);
    var d, entry := Display.Run(s0.display, before), Entry(first, strokes, after);
    KeysAndSpeedsArrive(now, clockSet, store, inputs);
    NoKeysLeft();
    NothingAfter(KeyValues(before + entry));
    KeysConcat(before, entry);
    DemandIsPosted(now, clockSet, store, inputs);
    Display.RunConcat(s0.display, before, entry);
    Display.EntryIsTheStack(d, first, strokes, after);
    EntryEndsPosts(Display.Posts(s0.display, before), Display.Pushes([first.key], strokes));
  }

  lemma NoKeysLeft()
    ensures Values(Of([], 2)) == [] && Values(Of([], 7)) == []
  {
  }

  /** With nothing left in the queue the demand is the speed that the display posted last. */
  lemma DemandIsPosted(now: nat, clockSet: bool, store: E2Driver.Store, inputs: seq<Input>)
    requires Wf(Boot(now, clockSet, store)) && Firmware.Run(Boot(now, clockSet, store), inputs).queue == []
    ensures var s0 := Boot(now, clockSet, store);
            Firmware.Run(s0, inputs).control.demand == LastOf(Values(Display.Posts(s0.display, DisplayEvents(Trace(s0, inputs)))))
  {
    hide Of, Values, SpeedValues, KeyValues, Firmware.Run, Trace, Boot, Wf, Carried, ControlEvents, DisplayEvents, Polls, LoggerEvents,
         Keypad.Posts, Display.Posts, Keypad.Run, Display.Run, Control.Run, LogModel.Run, ControlLaws.Texts, ControlLaws.LastSpeed;
    var s0 := Boot(now, clockSet, store);
    BootIsIdle(now, clockSet, store);
    KeysAndSpeedsArrive(now, clockSet, store, inputs);
    NoKeysLeft();
    NothingAfter(SpeedValues(ControlEvents(Trace(s0, inputs))));
    DemandIsLast(s0.control, ControlEvents(Trace(s0, inputs)));
  }

  lemma NothingAfter(ws: seq<u16>)
    ensures ws + [] == ws
  {
  }

  /** The last value posted after an entry is the speed it makes, if that is admissible. */
  lemma EntryEndsPosts(posts: seq<Note>, stack: seq<nat>)
    requires Display.IsStack(stack)
    ensures var speed := Display.Entered(stack);
            LastOf(Values(posts + Display.Verdict(stack))) == if speed == 0 || 50 <= speed <= 340 then speed else LastOf(Values(posts))
  {
    hide Values, Display.Entered;
    ValuesConcat(posts, Display.Verdict(stack));
    VerdictValues(stack);
    NothingAfter(Values(posts));
  }

  function LastOf(ws: seq<u16>): u16 { if ws == [] then 0 else ws[|ws| - 1] }

  lemma BootIsIdle(now: nat, clockSet: bool, store: E2Driver.Store)
    ensures Boot(now, clockSet, store).control.demand == 0 && Display.CursorOk(Boot(now, clockSet, store).display)
  {
  }

  lemma VerdictValues(stack: seq<nat>)
    requires Display.IsStack(stack)
    ensures var speed := Display.Entered(stack);
            Values(Display.Verdict(stack)) == if speed == 0 || 50 <= speed <= 340 then [speed] else []
  {
    OneValue(Note(7, Value(Display.Entered(stack))));
  }

  // ---------- The texts of the log ----------

  /** From the tachometer and the keypad to the log: over every run from power-up whose task calls of the
      controller are timely, the texts that were offered to the logger, and the one on its way, are those that
      the entered speeds and the tachometer counts of the ticks call for. */
  lemma LoggedTextsAreMeasured(now: nat, clockSet: bool, store: E2Driver.Store, inputs: seq<Input>)
    requires var s0 := Boot(now, clockSet, store);
             Wf(s0) && ControlLaws.Timely(now, ControlEvents(Trace(s0, inputs)))
    ensures var s0 := Boot(now, clockSet, store);
            var t, hs := Firmware.Run(s0, inputs), Trace(s0, inputs);
            && Firmware.Texts(AllLogEvents(s0, inputs)) + InFlight(t.queue, t.control.buffer)
                 == ControlLaws.AllExpectedTexts(now, ControlEvents(hs))
            && ControlLaws.Follows(now, ControlEvents(hs), t.control)
  {
    hide Inv, Boot, Firmware.Run, Trace, AllLogEvents, LogModel.Run, Firmware.Texts, InFlight, ControlLaws.Timely, ControlLaws.Follows,
         Carried, Keypad.Run, Display.Run, Control.Run, ControlLaws.AllExpectedTexts, ControlLaws.Texts;
    var s0 := Boot(now, clockSet, store);
    BootIsFine(now, clockSet, store);
    BootStarts(now, clockSet, store);
    BootLog(now, clockSet, store);
    var t, hs := Firmware.Run(s0, inputs), Trace(s0, inputs);
    RunMatches(s0, inputs);
    RunOnLog(s0, inputs);
    RunKeeps(s0, inputs);
    FormattedIs(t);
    ControlLaws.RunFollows(now, ControlEvents(hs));
    assert [] + ControlLaws.Texts(s0.control, ControlEvents(hs)) == ControlLaws.Texts(s0.control, ControlEvents(hs));
    assert [] + Firmware.Texts(AllLogEvents(s0, inputs)) == Firmware.Texts(AllLogEvents(s0, inputs));
  }

  lemma BootStarts(now: nat, clockSet: bool, store: E2Driver.Store)
    ensures var s := Boot(now, clockSet, store);
            s.control == ControlLaws.Start(now) && s.formatted == [] && s.display == Display.Initial(now)
  {
  }

  // ---------- Requests to the logger ----------

  function Dumps(es: seq<LogModel.Event>): nat {
    if es == [] then 0 else Dumps(es[..|es| - 1]) + if es[|es| - 1].DumpLog? then 1 else 0
  }

  function Deletions(es: seq<LogModel.Event>): nat {
    if es == [] then 0 else Deletions(es[..|es| - 1]) + if es[|es| - 1].DeleteLog? then 1 else 0
  }

  /** How often the speed 0 reached the controller. */
  function Zeros(es: seq<Control.Event>): nat {
    if es == [] then 0 else Zeros(es[..|es| - 1]) + if es[|es| - 1] == Control.Enter(0) then 1 else 0
  }

  lemma RequestOf(es: seq<LogModel.Event>, h: Happening)
    ensures Dumps(es + LoggerEventOf(h)) == Dumps(es) + |Of(NoteOf(h), 10)|
    ensures Deletions(es + LoggerEventOf(h)) == Deletions(es) + |Of(NoteOf(h), 9)|
  {
    if h.Delivered? {
      OneValue(h.note);
    }
    if LoggerEventOf(h) == [] {
      assert es + LoggerEventOf(h) == es;
    } else {
      assert (es + LoggerEventOf(h))[..|es|] == es;
    }
  }

  lemma {:induction false} RequestsAreDeliveries(hs: seq<Happening>)
    ensures Dumps(LoggerEvents(hs)) == |Of(Received(hs), 10)|
    ensures Deletions(LoggerEvents(hs)) == |Of(Received(hs), 9)|
    decreases |hs|
  {
    hide Of, LoggerEventOf, NoteOf;
    if hs == [] {
      NoShares();
    } else {
      var most, h := hs[..|hs| - 1], hs[|hs| - 1];
      RequestsAreDeliveries(most);
      RequestOf(LoggerEvents(most), h);
      OfConcat(Received(most), NoteOf(h), 10);
      OfConcat(Received(most), NoteOf(h), 9);
    }
  }

  lemma ZeroPosts(c: Control.State, e: Control.Event)
    ensures |Of(Control.Next(c, e).1, 10)| == if e == Control.Enter(0) then 1 else 0
  {
    hide Control.LogText, Control.Adjusted;
    var posts := Control.Next(c, e).1;
    if |posts| == 1 {
      OneValue(posts[0]);
      assert posts == [posts[0]];
    } else if |posts| == 2 {
      OneValue(posts[0]);
      OneValue(posts[1]);
      OfConcat([posts[0]], [posts[1]], 10);
      assert posts == [posts[0]] + [posts[1]];
    }
  }

  lemma {:induction false} ZerosArePosted(c: Control.State, es: seq<Control.Event>)
    ensures |Of(ControlLaws.Posts(c, es), 10)| == Zeros(es)
    decreases |es|
  {
    hide Of, Control.Next;
    if es == [] {
      NoShares();
    } else {
      var most := es[..|es| - 1];
      ZerosArePosted(c, most);
      ZeroPosts(Control.Run(c, most), es[|es| - 1]);
      OfConcat(ControlLaws.Posts(c, most), Control.Next(Control.Run(c, most), es[|es| - 1]).1, 10);
    }
  }

  /** Over every run from power-up a dump is asked of the logger once for each time the speed 0 was entered, but
      for the requests still queued; and a deletion is never asked of it. */
  lemma DumpsAreZeros(now: nat, clockSet: bool, store: E2Driver.Store, inputs: seq<Input>)
    ensures var s0 := Boot(now, clockSet, store);
            && Wf(s0)
            && Dumps(AllLogEvents(s0, inputs)) + |Of(Firmware.Run(s0, inputs).queue, 10)| == Zeros(ControlEvents(Trace(s0, inputs)))
            && Deletions(AllLogEvents(s0, inputs)) == 0
  {
    hide Of, Firmware.Run, Trace, Boot, Inv, Matches, AllLogEvents, Keypad.Posts, Display.Posts, ControlLaws.Posts;
    var s0 := Boot(now, clockSet, store);
    BootIsFine(now, clockSet, store);
    InvIsWf(s0);
    RunMatches(s0, inputs);
    LogEventsAreTraced(s0, inputs);
    var t, hs := Firmware.Run(s0, inputs), Trace(s0, inputs);
    CarriedById(s0, hs, t, 9);
    CarriedById(s0, hs, t, 10);
    BootPosts(now, clockSet, store, 9);
    BootPosts(now, clockSet, store, 10);
    RequestsAreDeliveries(hs);
    ZerosArePosted(s0.control, ControlEvents(hs));
  }

  // ---------- Start-up ----------

  lemma {:induction false} DisplayEventsConcat(a: seq<Happening>, b: seq<Happening>)
    ensures DisplayEvents(a + b) == DisplayEvents(a) + DisplayEvents(b)
    decreases |b|
  {
    hide DisplayEventOf;
    if b == [] {
      assert a + b == a;
    } else {
      assert (a + b)[..|a + b| - 1] == a + b[..|b| - 1];
      DisplayEventsConcat(a, b[..|b| - 1]);
    }
  }

  lemma {:induction false} StartConcat(a: seq<Display.Event>, b: seq<Display.Event>)
    ensures DisplayLaws.Completed(a) || DisplayLaws.Completed(b) ==> DisplayLaws.Completed(a + b)
    ensures DisplayLaws.Started(a) || (DisplayLaws.Completed(a) && exists i :: 0 <= i < |b| && b[i].Loop?) ==> DisplayLaws.Started(a + b)
    decreases |b|
  {
    if b == [] {
      assert a + b == a;
    } else {
      assert (a + b)[..|a + b| - 1] == a + b[..|b| - 1];
      StartConcat(a, b[..|b| - 1]);
    }
  }

  lemma StartMessage(es: seq<Display.Event>, h: Happening)
    ensures forall e <- DisplayEventOf(h) :: e.Message? ==> e.id == 4 || e.id == 5
    ensures DisplayLaws.Completed(es + DisplayEventOf(h)) ==> DisplayLaws.Completed(es) || Of(NoteOf(h), 4) != []
  {
    if h.Delivered? {
      OneValue(h.note);
    }
    if DisplayEventOf(h) == [] {
      assert es + DisplayEventOf(h) == es;
    } else {
      assert (es + DisplayEventOf(h))[..|es|] == es;
    }
  }

  /** The display is only sent key messages as keys, and completion only as it was delivered. */
  lemma {:induction false} StartMessages(hs: seq<Happening>)
    ensures forall e <- DisplayEvents(hs) :: e.Message? ==> e.id == 4 || e.id == 5
    ensures DisplayLaws.Completed(DisplayEvents(hs)) ==> Of(Received(hs), 4) != []
    decreases |hs|
  {
    hide Of, DisplayLaws.Completed, DisplayEventOf, NoteOf;
    if hs == [] {
      NothingCompleted();
    } else {
      var most, h := hs[..|hs| - 1], hs[|hs| - 1];
      StartMessages(most);
      OfConcat(Received(most), NoteOf(h), 4);
      StartMessage(DisplayEvents(most), h);
    }
  }

  lemma NothingCompleted()
    ensures !DisplayLaws.Completed([])
  {
  }

  /** If the clock was not set the display never leaves its start screen. */
  lemma NoStartWithoutClock(now: nat, store: E2Driver.Store, inputs: seq<Input>)
    ensures Wf(Boot(now, false, store)) && Firmware.Run(Boot(now, false, store), inputs).display.mode.InitDisplay?
  {
    hide Of, Firmware.Run, Trace, Boot, Inv, Wf, Matches, Keypad.Posts, Display.Posts, ControlLaws.Posts, Display.Run,
         DisplayEvents, Polls, ControlEvents, Received, DisplayLaws.Started, DisplayLaws.Completed;
    var s0 := Boot(now, false, store);
    BootIsFine(now, false, store);
    InvIsWf(s0);
    BootStarts(now, false, store);
    RunMatches(s0, inputs);
    var hs := Trace(s0, inputs);
    DisplayMatches(s0, hs, Firmware.Run(s0, inputs));
    CarriedById(s0, hs, Firmware.Run(s0, inputs), 4);
    BootPosts(now, false, store, 4);
    StartMessages(hs);
    if DisplayLaws.Started(DisplayEvents(hs)) {
      StartedIsCompleted(DisplayEvents(hs));
    }
    DisplayLaws.StartsIff(now, DisplayEvents(hs));
  }

  lemma DisplayMatches(s0: State, hs: seq<Happening>, s: State)
    requires Matches(s0, hs, s)
    ensures Wf(s0) && s.display == Display.Run(s0.display, DisplayEvents(hs))
  {
  }

  lemma {:induction false} StartedIsCompleted(es: seq<Display.Event>)
    ensures DisplayLaws.Started(es) ==> DisplayLaws.Completed(es)
    decreases |es|
  {
    if es != [] {
      StartedIsCompleted(es[..|es| - 1]);
    }
  }

  /** A message of the keypad that is no key goes nowhere. */
  lemma BlankDelivered(s: State, at: Arrival)
    requires Wf(s) && s.queue != [] && s.queue[0].id == 1
    ensures Deliver(s, at).queue == s.queue[1..]
  {
    hide LogModel.Next, Control.HandleStep, Display.HandleStep;
  }

  lemma BootQueue(now: nat, store: E2Driver.Store)
    ensures Boot(now, true, store).queue == [Note(1, Value(255)), Note(4, Value(0))]
  {
  }

  lemma OnlyCompletion(h: Happening, g: Happening)
    requires h.Delivered? && h.note.id == 1 && g.Delivered? && g.note == Note(4, Value(0))
    ensures DisplayEvents([h] + [g]) == [Display.Message(4, 0)]
    ensures DisplayLaws.Completed(DisplayEvents([h] + [g]))
  {
    OneMore([], h);
    OneMore([h], g);
    assert [] + [h] == [h];
  }

  /** The first iteration hands the display the message that start-up is complete. */
  lemma FirstIteration(now: nat, store: E2Driver.Store, input: Input)
    ensures Wf(Boot(now, true, store))
    ensures DisplayLaws.Completed(DisplayEvents(Iteration(Boot(now, true, store), input)))
  {
    hide Turn, Deliver, Boot, Inv, Wf, DisplayEvents, DisplayLaws.Completed;
    var s := Boot(now, true, store);
    BootIsFine(now, true, store);
    InvIsWf(s);
    BootQueue(now, store);
    BlankDelivered(s, input.arrival);
    var t := Deliver(s, input.arrival);
    var u := Turn(Deliver(t, input.arrival), input);
    OnlyCompletion(FirstNote(s, input.arrival)[0], FirstNote(t, input.arrival)[0]);
    var a := FirstNote(s, input.arrival) + FirstNote(t, input.arrival);
    DisplayEventsConcat(a, u);
    StartConcat(DisplayEvents(a), DisplayEvents(u));
  }

  /** The third turn from power-up is the display's. */
  lemma ThirdTurn(now: nat, clockSet: bool, store: E2Driver.Store, two: seq<Input>, input: Input)
    requires |two| == 2
    ensures var s := Boot(now, clockSet, store);
            && Wf(s) && DisplayEvents(Iteration(Firmware.Run(s, two), input)) != []
            && exists i :: 0 <= i < |DisplayEvents(Iteration(Firmware.Run(s, two), input))|
                           && DisplayEvents(Iteration(Firmware.Run(s, two), input))[i].Loop?
  {
    hide Inv, Firmware.Run, Deliver, FirstNote;
    var s := Boot(now, clockSet, store);
    BootIsFine(now, clockSet, store);
    InvIsWf(s);
    RingTurns(s, two);
    var r := Firmware.Run(s, two);
    TwoTurns();
    var t := Deliver(r, input.arrival);
    var u := Deliver(t, input.arrival);
    RingKept(r, input.arrival);
    RingKept(t, input.arrival);
    var h := Ran(2, input, IoOf(u.log, input.bus));
    assert Turn(u, input) == [h];
    var a := FirstNote(r, input.arrival) + FirstNote(t, input.arrival);
    OneMore(a, h);
    var es := DisplayEvents(a + [h]);
    assert es[|es| - 1] == Display.Loop(input.now);
  }

  lemma TwoTurns()
    ensures var r := TaskRing.Steps(TaskRing.Ring(TASKS, 0, []), 2, _ => []);
            r.entries == TASKS && r.left == 3 && r.calls == [4, 3]
  {
    var r0 := TaskRing.Ring(TASKS, 0, []);
    var r1 := TaskRing.Step(r0, _ => []);
    assert r1 == TaskRing.Ring(TASKS, 4, [4]);
    assert TaskRing.Step(r1, _ => []) == TaskRing.Ring(TASKS, 3, [4, 3]);
    assert TaskRing.Steps(r0, 2, _ => []) == TaskRing.Steps(r1, 1, _ => []);
  }

  lemma RingKept(s: State, at: Arrival)
    requires Wf(s)
    ensures Deliver(s, at).ring == s.ring
  {
    hide LogModel.Next, Control.HandleStep, Display.HandleStep;
  }

  /** If the clock was set the display has left its start screen after three iterations, and never returns. */
  lemma {:induction false} StartsWithinThree(now: nat, store: E2Driver.Store, inputs: seq<Input>)
    requires 3 <= |inputs|
    ensures Wf(Boot(now, true, store)) && !Firmware.Run(Boot(now, true, store), inputs).display.mode.InitDisplay?
    ensures DisplayLaws.Started(DisplayEvents(Trace(Boot(now, true, store), inputs)))
    decreases |inputs|
  {
    hide Of, Firmware.Run, Boot, Inv, Matches, Keypad.Posts, Display.Posts, ControlLaws.Posts, Display.Run,
         Polls, ControlEvents, Received, Iteration, DisplayEvents, Wf, DisplayLaws.Started, DisplayLaws.Completed;
    var s0 := Boot(now, true, store);
    BootIsFine(now, true, store);
    InvIsWf(s0);
    BootStarts(now, true, store);
    var most, last := inputs[..|inputs| - 1], inputs[|inputs| - 1];
    DisplayEventsConcat(Trace(s0, most), Iteration(Firmware.Run(s0, most), last));
    StartConcat(DisplayEvents(Trace(s0, most)), DisplayEvents(Iteration(Firmware.Run(s0, most), last)));
    if |inputs| == 3 {
      CompletedAfterTwo(now, store, most);
      ThirdTurn(now, true, store, most, last);
    } else {
      StartsWithinThree(now, store, most);
    }
    RunMatches(s0, inputs);
    DisplayMatches(s0, Trace(s0, inputs), Firmware.Run(s0, inputs));
    StartMessages(Trace(s0, inputs));
    DisplayLaws.StartsIff(now, DisplayEvents(Trace(s0, inputs)));
  }

  lemma CompletedAfterTwo(now: nat, store: E2Driver.Store, two: seq<Input>)
    requires |two| == 2
    ensures Wf(Boot(now, true, store)) && DisplayLaws.Completed(DisplayEvents(Trace(Boot(now, true, store), two)))
  {
    hide Iteration, Boot, DisplayEvents, DisplayLaws.Completed, Wf, Firmware.Loop;
    var s0 := Boot(now, true, store);
    FirstIteration(now, store, two[0]);
    var one := two[..1];
    assert one[..0] == [] && one[0] == two[0];
    assert Trace(s0, one) == [] + Iteration(s0, two[0]);
    assert [] + Iteration(s0, two[0]) == Iteration(s0, two[0]);
    DisplayEventsConcat(Trace(s0, one), Iteration(Firmware.Run(s0, one), two[1]));
    StartConcat(DisplayEvents(Trace(s0, one)), DisplayEvents(Iteration(Firmware.Run(s0, one), two[1])));
  }
}
