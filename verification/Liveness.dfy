/** What the firmware does in time: each accepted text is committed within 45 iterations. */
module Liveness {
  import opened Bytes
  import opened Messages
  import opened Iic
  import opened LogModel
  import opened Firmware
  import opened Progress
  import E2Driver
  import TaskRing
  import ExactlyOnce
  import Display
  import Control

  // ---------- The logger's turns ----------

  lemma {:induction false} TasksConcat(a: seq<Event>, b: seq<Event>)
    ensures Tasks(a + b) == Tasks(a) + Tasks(b)
    decreases |b|
  {
    if b == [] {
      assert a + b == a;
    } else {
      assert (a + b)[..|a + b| - 1] == a + b[..|b| - 1];
      TasksConcat(a, b[..|b| - 1]);
    }
  }

  lemma FirstEventIsNoTask(s: State, at: Arrival)
    ensures Tasks(FirstEvent(s, at)) == 0
  {
  }

  lemma TurnIsTask(s: State, input: Input)
    requires Wf(s)
    ensures Tasks(LogEventsOfTask(s, input)) + multiset(s.ring.calls)[3] == multiset(TaskRing.Step(s.ring, _ => []).calls)[3]
  {
    var ring := TaskRing.Step(s.ring, _ => []);
    assert ring.calls == s.ring.calls || (ring.calls != [] && ring.calls[..|ring.calls| - 1] == s.ring.calls);
    if |ring.calls| > |s.ring.calls| {
      assert ring.calls == s.ring.calls + [ring.calls[|s.ring.calls|]];
    }
  }

  /** One iteration has the logger's task step exactly when it is the logger's turn. */
  lemma IterationTasks(s: State, input: Input)
    requires Inv(s)
    ensures Wf(s) && Tasks(LogEvents(s, input)) + multiset(s.ring.calls)[3] == multiset(Firmware.Loop(s, input).ring.calls)[3]
  {
    hide Inv, Deliver, Tasks, FirstEvent, LogEventsOfTask, TaskRing.Step, Schedule;
    InvIsWf(s);
    var t := Deliver(s, input.arrival);
    DeliverTakesOne(s, input.arrival);
    InvIsWf(t);
    var u := Deliver(t, input.arrival);
    DeliverTakesOne(t, input.arrival);
    InvIsWf(u);
    FirstEventIsNoTask(s, input.arrival);
    FirstEventIsNoTask(t, input.arrival);
    TurnIsTask(u, input);
    TasksConcat(FirstEvent(s, input.arrival), FirstEvent(t, input.arrival));
    TasksConcat(FirstEvent(s, input.arrival) + FirstEvent(t, input.arrival), LogEventsOfTask(u, input));
    RingOfLoop(s, input);
    RingOfDeliver(s, input.arrival);
    RingOfDeliver(t, input.arrival);
  }

  lemma RingOfDeliver(s: State, at: Arrival)
    requires Wf(s)
    ensures Deliver(s, at).ring == s.ring
  {
    hide LogModel.Next, Control.HandleStep, Display.HandleStep;
  }

  lemma {:induction false} TurnsAreTasks(s: State, inputs: seq<Input>)
    requires Inv(s)
    ensures Wf(s) && Tasks(AllLogEvents(s, inputs)) + multiset(s.ring.calls)[3] == multiset(Firmware.Run(s, inputs).ring.calls)[3]
    decreases |inputs|
  {
    hide Inv, Firmware.Loop, LogEvents, Tasks;
    InvIsWf(s);
    if inputs == [] {
      NoTasks();
    } else {
      var most, last := inputs[..|inputs| - 1], inputs[|inputs| - 1];
      TurnsAreTasks(s, most);
      RunKeeps(s, most);
      IterationTasks(Firmware.Run(s, most), last);
      TasksConcat(AllLogEvents(s, most), LogEvents(Firmware.Run(s, most), last));
    }
  }

  lemma NoTasks()
    ensures Tasks([]) == 0
  {
  }

  /** In any 5k iterations the logger has k turns. */
  lemma {:induction false} LoggerTurns(s: State, inputs: seq<Input>, k: nat)
    requires Inv(s) && BootRing(s.ring) && |inputs| == 5 * k
    ensures Wf(s) && Tasks(AllLogEvents(s, inputs)) == k
    decreases k
  {
    hide Inv, Firmware.Run, AllLogEvents, Tasks, BootRing;
    InvIsWf(s);
    if k == 0 {
      NoEventsYet(s);
    } else {
      var five, rest := inputs[..5], inputs[5..];
      assert inputs == five + rest;
      Firmware.RunConcat(s, five, rest);
      FiveTurns(s, five);
      TurnsAreTasks(s, five);
      RunKeeps(s, five);
      RingStaysBoot(s, five);
      LoggerTurns(Firmware.Run(s, five), rest, k - 1);
      TasksConcat(AllLogEvents(s, five), AllLogEvents(Firmware.Run(s, five), rest));
    }
  }

  lemma NoEventsYet(s: State)
    requires Wf(s)
    ensures Tasks(AllLogEvents(s, [])) == 0
  {
  }

  // ---------- A working bus ----------

  /** Every byte of every transfer is answered. */
  predicate GoodBusFor(inputs: seq<Input>) {
    forall i :: 0 <= i < |inputs| ==> AllAnswered(inputs[i].bus.first, 66) && AllAnswered(inputs[i].bus.second, 64)
  }

  predicate NoDump(es: seq<Event>) { forall e <- es :: !e.DumpLog? }

  lemma GoodIteration(s: State, input: Input)
    requires Inv(s) && Alive(s.log) && GoodBusFor([input])
    requires Wf(s) && NoDump(LogEvents(s, input))
    ensures Working(LogEvents(s, input)) && Alive(Firmware.Loop(s, input).log)
  {
    hide Inv, Deliver, Schedule, Tasks, FirstEvent, LogEventsOfTask, LogModel.Run, Alive, Proper, Texts;
    var t := Deliver(s, input.arrival);
    var u := Deliver(t, input.arrival);
    DeliverTakesOne(s, input.arrival);
    DeliverTakesOne(t, input.arrival);
    InvIsWf(t);
    InvIsWf(u);
    FirstEventIsProper(s, input.arrival);
    FirstEventIsProper(t, input.arrival);
    TaskEventIsProper(u, input);
    var a, b, c := FirstEvent(s, input.arrival), FirstEvent(t, input.arrival), LogEventsOfTask(u, input);
    SplitNoDump(a, b, c);
    MessagesWork(s, input.arrival);
    MessagesWork(t, input.arrival);
    WorkingRun(s.log, a);
    WorkingRun(t.log, b);
    TurnWorks(u, input);
    WorkingRun(u.log, c);
    JoinWorking(a, b, c);
  }

  lemma SplitNoDump(a: seq<Event>, b: seq<Event>, c: seq<Event>)
    requires NoDump(a + b + c)
    ensures NoDump(a) && NoDump(b) && NoDump(c)
  {
    assert forall e <- a :: e in a + b + c;
    assert forall e <- b :: e in a + b + c;
    assert forall e <- c :: e in a + b + c;
  }

  lemma JoinWorking(a: seq<Event>, b: seq<Event>, c: seq<Event>)
    requires Working(a) && Working(b) && Working(c)
    ensures Working(a + b + c)
  {
  }

  lemma MessagesWork(s: State, at: Arrival)
    requires Proper(FirstEvent(s, at)) && NoDump(FirstEvent(s, at))
    ensures Working(FirstEvent(s, at))
  {
  }

  lemma TurnWorks(s: State, input: Input)
    requires Wf(s) && Alive(s.log) && GoodBusFor([input])
    ensures Working(LogEventsOfTask(s, input))
  {
    hide TaskRing.Step, Served, Sound;
    assert [input][0] == input;
    AliveFree(s.log);
    GoodBus(s.log, input.bus);
  }

  lemma AliveFree(t: Log)
    requires Alive(t)
    ensures t.mode.WriteLogMsg? ==> t.cb.nextFree <= E2Driver.LAST_PAGE
    ensures !t.mode.ReadbackLog?
  {
  }

  lemma WorkingRun(s: Log, es: seq<Event>)
    requires Alive(s) && Working(es)
    ensures WriterHasMessage(s) && Alive(LogModel.Run(s, es))
  {
    hide Alive;
    RunApproaches(s, 0, es);
    ApproachAlive(s, LogModel.Run(s, es), Tasks(es), ExactlyOnce.Commits(s, es));
  }

  lemma ApproachAlive(s: Log, t: Log, tasks: nat, commits: nat)
    requires Approaches(s, 0, t, tasks, commits)
    ensures Alive(t)
  {
  }

  lemma {:induction false} GoodRun(s: State, inputs: seq<Input>)
    requires Inv(s) && Wf(s) && Alive(s.log) && GoodBusFor(inputs) && NoDump(AllLogEvents(s, inputs))
    ensures Working(AllLogEvents(s, inputs)) && Alive(Firmware.Run(s, inputs).log)
    decreases |inputs|
  {
    hide Inv, Firmware.Loop, LogEvents, Alive;
    if inputs != [] {
      var most, last := inputs[..|inputs| - 1], inputs[|inputs| - 1];
      var x, y := AllLogEvents(s, most), LogEvents(Firmware.Run(s, most), last);
      NoDumpParts(x, y);
      GoodRun(s, most);
      RunKeeps(s, most);
      assert GoodBusFor([last]);
      GoodIteration(Firmware.Run(s, most), last);
    }
  }

  lemma NoDumpParts(a: seq<Event>, b: seq<Event>)
    requires NoDump(a + b)
    ensures NoDump(a) && NoDump(b)
  {
    assert forall e <- a :: e in a + b;
    assert forall e <- b :: e in a + b;
  }

  // ---------- Committed in time ----------

  lemma AliveAtPowerUp(store: E2Driver.Store)
    requires ExactlyOnce.Usable(store)
    ensures Alive(LogModel.PowerUp(store))
  {
  }

  /** Everything that was accepted is committed or still queued. */
  lemma EnteredCount(store: E2Driver.Store, es: seq<Event>)
    requires ExactlyOnce.Usable(store) && ExactlyOnce.Undisturbed(es)
    ensures var s := LogModel.PowerUp(store);
            |ExactlyOnce.Entered(s, es)| == ExactlyOnce.Commits(s, es) + |LogModel.Run(s, es).pending|
  {
    hide LogModel.Run, ExactlyOnce.Entered, ExactlyOnce.Commits, ExactlyOnce.RamLog, ExactlyOnce.Started, LogModel.Recover, LogOf;
    ExactlyOnce.ExactlyOnceFromPowerUp(store, es);
  }

  /** Whatever happened before, as long as the logger is at work: with a working bus and no dump requested, each
      text that was accepted so far is on its page within 45 iterations. */
  lemma AcceptedIsCommitted(now: nat, clockSet: bool, store: E2Driver.Store, before: seq<Input>, next: seq<Input>)
    requires ExactlyOnce.Usable(store)
    requires var s := Boot(now, clockSet, store);
             && Wf(s) && Alive(Firmware.Run(s, before).log)
             && NoDump(AllLogEvents(Firmware.Run(s, before), next))
    requires GoodBusFor(next) && |next| == 45
    ensures var s := Boot(now, clockSet, store);
            ExactlyOnce.Commits(s.log, AllLogEvents(s, before + next)) >= |ExactlyOnce.Entered(s.log, AllLogEvents(s, before))|
  {
    hide Inv, Boot, Firmware.Run, AllLogEvents, LogModel.Run, Alive, ExactlyOnce.Usable, ExactlyOnce.Commits, ExactlyOnce.Entered,
         BootRing, Tasks, Proper;
    var s := Boot(now, clockSet, store);
    BootIsFine(now, clockSet, store);
    BootHasRing(now, clockSet, store);
    BootLog(now, clockSet, store);
    RunKeeps(s, before);
    RingStaysBoot(s, before);
    RunOnLog(s, before);
    Firmware.RunConcat(s, before, next);
    var t := Firmware.Run(s, before);
    var x, y := AllLogEvents(s, before), AllLogEvents(t, next);
    InvIsWf(t);
    GoodRun(t, next);
    LoggerTurns(t, next, 9);
    ProperIsUndisturbed(x);
    EnteredCount(store, x);
    ExactlyOnce.FailureBound(s.log, x);
    CommitsInTime(t.log, |t.log.pending|, y);
    CommitsConcat(s.log, x, y);
  }

  /** So from power-up on, with a bus that works throughout and no dump requested. */
  lemma WorkingBusCommits(now: nat, clockSet: bool, store: E2Driver.Store, before: seq<Input>, next: seq<Input>)
    requires ExactlyOnce.Usable(store)
    requires var s := Boot(now, clockSet, store); Wf(s) && NoDump(AllLogEvents(s, before + next))
    requires GoodBusFor(before + next) && |next| == 45
    ensures var s := Boot(now, clockSet, store);
            ExactlyOnce.Commits(s.log, AllLogEvents(s, before + next)) >= |ExactlyOnce.Entered(s.log, AllLogEvents(s, before))|
  {
    hide Inv, Boot, Firmware.Run, AllLogEvents, Alive, ExactlyOnce.Usable, ExactlyOnce.Commits, ExactlyOnce.Entered;
    var s := Boot(now, clockSet, store);
    BootIsFine(now, clockSet, store);
    BootLog(now, clockSet, store);
    AliveAtPowerUp(store);
    Firmware.RunConcat(s, before, next);
    NoDumpParts(AllLogEvents(s, before), AllLogEvents(Firmware.Run(s, before), next));
    SplitBus(before, next);
    GoodRun(s, before);
    AcceptedIsCommitted(now, clockSet, store, before, next);
  }

  lemma SplitBus(a: seq<Input>, b: seq<Input>)
    requires GoodBusFor(a + b)
    ensures GoodBusFor(a) && GoodBusFor(b)
  {
    assert forall i :: 0 <= i < |a| ==> (a + b)[i] == a[i];
    assert forall i :: 0 <= i < |b| ==> (a + b)[|a| + i] == b[i];
  }
}
