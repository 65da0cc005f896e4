/** The kernel's `loop()` over the real objects: two messages, then one task. */
module KernelLoop {
  import opened Bytes
  import opened Messages
  import opened LogModel
  import opened Firmware
  import opened Wiring
  import Subscriptions
  import MessageQueue
  import E2Driver
  import Iic
  import TaskRing
  import Control
  import Display
  import Keypad
  import LogTask

  class Kernel {
    const mq: MessageQueue.MQ
    const places: Places
    const taskManager: TaskRing.TaskManager
    const control: Control.Control
    const display: Display.Display
    const keypad: Keypad.KeypadTask
    const logger: LogTask.LogTask
    ghost var formatted: seq<seq<byte>>
    ghost var logged: seq<seq<byte>>

    /** The linked queue is in order, every id has its one subscriber, and the queue holds messages as the
        application sends them. */
    ghost predicate QueueOk()
      reads mq, mq.queueBlock, mq.owned, mq.nodes
    {
      mq.Valid() && Apart(places) && Wired(places, mq.table) && AllWellSent(places, mq.queue)
    }

    ghost predicate Valid()
      reads this, mq, mq.queueBlock, mq.owned, mq.nodes
      reads taskManager, display, display.userInputValues, logger, logger.chain, logger.e2.bus
    {
      && QueueOk() && taskManager.Valid() && display.Ok() && logger.Valid()
      && control.timer != display.errorTimer && control.timer != keypad.keyTimer && display.errorTimer != keypad.keyTimer
    }

    ghost function View(): (s: State)
      requires Valid()
      reads this, mq, mq.queueBlock, mq.owned, mq.nodes
      reads taskManager, control, control.timer, display, display.userInputValues, display.errorTimer
      reads keypad, keypad.keyTimer, logger, logger.chain, logger.e2.bus
    {
      State(AllReceived(mq.queue), taskManager.View(), control.View(), display.View(), keypad.View(), logger.State(),
            formatted, logged)
    }

    /** The global objects as their constructors leave them, but for the subscriptions. */
    ghost predicate Constructed(now: nat, store: E2Driver.Store)
      reads this, mq, mq.queueBlock, mq.owned, mq.nodes
      reads taskManager, control, control.timer, display, display.userInputValues, display.errorTimer
      reads keypad, keypad.keyTimer, logger, logger.chain, logger.e2.bus
    {
      && mq.Valid() && mq.inHand == null && mq.table == Subscriptions.EmptyTable() && mq.queue == [] && Apart(places)
      && taskManager.Valid() && taskManager.View() == TaskRing.Ring([], 0, []) && display.Ok() && logger.Valid()
      && control.timer != display.errorTimer && control.timer != keypad.keyTimer && display.errorTimer != keypad.keyTimer
      && var s := Boot(now, false, store);
         control.View() == s.control && display.View() == s.display && keypad.View() == s.keypad
         && logger.State() == s.log && formatted == [] && logged == []
    }

    constructor (now: nat, e2: E2Driver.E2, places: Places)
      requires Iic.IsChip(e2.bus.chip) && Apart(places)
      ensures Constructed(now, e2.Contents()) && this.places == places && logger.e2 == e2
    {
      hide LogTask.LogTask.State, LogTask.LogTask.Valid, Display.Display.View, Display.Display.Ok, Control.Control.View,
           Keypad.KeypadTask.View, TaskRing.TaskManager.Valid, TaskRing.TaskManager.View, E2Driver.E2.Contents,
           MessageQueue.MQ.Valid, Apart, Display.Initial, Subscriptions.EmptyTable;
      this.places := places;
      mq := new MessageQueue.MQ();
      logger := new LogTask.LogTask(e2);
      control := new Control.Control(now);
      keypad := new Keypad.KeypadTask(now);
      display := new Display.Display(now);
      taskManager := new TaskRing.TaskManager();
      formatted, logged := [], [];
    }

    /** Subscriptions and start-up; `clockSet` says whether the clock chip accepted the date. */
    method StartUp(ghost now: nat, clockSet: bool, ghost store: E2Driver.Store)
      requires Constructed(now, store)
      modifies mq, mq.queueBlock, mq.owned, taskManager
      ensures Valid() && mq.inHand == null && View() == Boot(now, clockSet, store)
    {
      hide LogTask.LogTask.State, LogTask.LogTask.Valid, Display.Display.View, Control.Control.View, Wired, AllReceived,
           Keypad.KeypadTask.View, TaskRing.TaskManager.Valid, MessageQueue.MQ.Valid, Display.Display.Ok, PowerUp;
      SubscribeAll();
      RegisterTasks();
      assert AllReceived([]) == [];
      StartUpPosts(clockSet);
    }

    /** What the constructors of the logger, the controller, the display and the segment display subscribe to. */
    method SubscribeAll()
      requires mq.Valid() && Apart(places) && mq.table == Subscriptions.EmptyTable()
      modifies mq`lists, mq`nodes, mq`stamp, mq`table, mq.queueBlock
      ensures mq.Valid() && Wired(places, mq.table)
    {
      hide MessageQueue.MQ.Valid, WiredSoFar, Wired, Subscriptions.Apply, Subscriptions.Admits;
      NothingWired();
      SubscribeOne(0, MSG_ID_DATALOG_LOGEVENT, places.logger);
      SubscribeOne(1, MSG_ID_DATALOG_DUMPLOG, places.logger);
      SubscribeOne(2, MSG_ID_DATALOG_DELETELOG, places.logger);
      SubscribeOne(3, MSG_ID_NEW_RPS_ENTERED, places.control);
      SubscribeOne(4, MSG_ID_INIT_COMPLETE, places.display);
      SubscribeOne(5, MSG_ID_NEW_ACTUAL_RPS, places.display);
      SubscribeOne(6, MSG_ID_KEY_PRESSED, places.display);
      SubscribeOne(7, MSG_ID_UPDATE_7SEG, places.segments);
      BootTable(places, mq.table);
    }

    lemma NothingWired()
      requires mq.table == Subscriptions.EmptyTable()
      ensures WiredSoFar(places, 0, mq.table)
    {
    }

    method SubscribeOne(ghost n: nat, id: nat, receiver: nat)
      requires mq.Valid() && Apart(places) && n < |BOOT_IDS| && WiredSoFar(places, n, mq.table)
      requires id == BOOT_IDS[n] && Receivers(places, id) == [Subscriptions.OfReceiver(receiver)]
      modifies mq`lists, mq`nodes, mq`stamp, mq`table, mq.queueBlock
      ensures mq.Valid() && WiredSoFar(places, n + 1, mq.table)
    {
      hide MessageQueue.MQ.Valid, WiredSoFar, Subscriptions.Apply, Subscriptions.Admits;
      OneMoreWired(places, n, mq.table);
      var _ := mq.Subscribe(id, Subscriptions.OfReceiver(receiver));
    }

    /** The constructor of the segment display posts a blank, start-up reports completion. */
    method StartUpPosts(clockSet: bool)
      requires Valid()
      modifies mq, mq.queueBlock, mq.owned
      ensures Valid() && mq.inHand == old(mq.inHand)
      ensures View() == old(View()).(queue := old(View()).queue + [Keypad.SegNote(Keypad.BLANK)]
                                              + if clockSet then [Note(MSG_ID_INIT_COMPLETE, Value(0))] else [])
    {
      hide Valid, View;
      var _ := PostAll([Keypad.SegNote(Keypad.BLANK)]);
      if clockSet {
        var _ := PostAll([Note(MSG_ID_INIT_COMPLETE, Value(0))]);
      }
    }

    /** The posts of a task or of start-up. */
    method PostAll(posts: seq<Note>) returns (ghost actions: seq<MessageQueue.Action>)
      requires Valid() && AllSendable(posts)
      modifies mq, mq.queueBlock, mq.owned
      ensures Valid() && mq.inHand == old(mq.inHand)
      ensures View() == old(View()).(queue := old(View()).queue + posts)
      ensures mq.View() == MessageQueue.DoAll(old(mq.View()), Posting(places, posts))
      ensures fresh(mq.owned - old(mq.owned))
    {
      hide MessageQueue.MQ.Valid, MessageQueue.DoAll, AllReceived, Wired, Posting, LogTask.LogTask.State, LogTask.LogTask.Valid,
           Control.Control.View, Display.Display.View, TaskRing.TaskManager.Valid;
      PostingAppends(places, mq.View(), posts);
      actions := Posting(places, posts);
      mq.Perform(Posting(places, posts));
    }

    method RegisterTasks()
      requires taskManager.Valid() && taskManager.View() == TaskRing.Ring([], 0, [])
      modifies taskManager
      ensures taskManager.Valid() && taskManager.View() == TaskRing.Ring(TASKS, 0, [])
    {
      var _ := taskManager.RegisterTaskHandler(KEYPAD);
      var _ := taskManager.RegisterTaskHandler(KEYPAD);
      var _ := taskManager.RegisterTaskHandler(DISPLAY);
      var _ := taskManager.RegisterTaskHandler(LOGGER);
      var _ := taskManager.RegisterTaskHandler(CONTROL);
    }

    /** One iteration of `loop()`. */
    method Loop(now: nat, count: u16, reading: Keypad.Port, bus: Bus, at: Arrival)
      requires Valid() && mq.inHand == null
      modifies this, mq, mq.queueBlock, mq.owned, taskManager, control, control.timer, display, display.userInputValues,
               display.errorTimer, keypad, keypad.keyTimer, logger, logger.e2.bus, logger.owned
      ensures Valid() && mq.inHand == null
      ensures Wf(old(View())) && View() == Firmware.Loop(old(View()), Input(now, count, reading, bus, at))
    {
      hide Valid, View, Deliver, Schedule, Wf;
      Wellformed();
      var _ := DeliverFirst(at);
      var _ := DeliverFirst(at);
      RunNext(now, count, reading, bus, at);
    }

    /** One round of the message queue: the first message goes to its subscriber. */
    method DeliverFirst(at: Arrival) returns (ghost replies: seq<Note>)
      requires Valid() && mq.inHand == null
      modifies `formatted, `logged, mq, mq.queueBlock, mq.owned, control, display, logger, logger.owned
      ensures Valid() && mq.inHand == null
      ensures Wf(old(View())) && View() == Deliver(old(View()), at)
      ensures mq.View() == MessageQueue.Round(old(mq.View()), Replies(places, replies))
      ensures forall n <- logger.owned :: n in old(logger.owned) || fresh(n)
      ensures fresh(mq.owned - old(mq.owned))
    {
      hide Valid, View, Wf, Firmware.Handle, MessageQueue.Open, MessageQueue.CallAll, MessageQueue.Discard, WellSent;
      Wellformed();
      ViewQueue();
      ReceivedHead(mq.queue);
      replies := [];
      var msg := Fetch();
      if msg != null {
        replies := Dispatch(msg.message, at);
        Delete(msg);
        ReplyWindow(places, old(mq.View()).(queue := old(mq.queue)[1..]), replies);
      } else {
        ReplyWindow(places, old(mq.View()), replies);
      }
    }

    lemma ViewQueue()
      requires Valid()
      ensures View().queue == AllReceived(mq.queue)
    {
    }

    /** Takes the first message off the queue, if there is one. No interrupt of this application posts. */
    method Fetch() returns (msg: MessageQueue.MessageNode?)
      requires Valid() && mq.inHand == null
      modifies mq, mq.owned
      ensures Valid() && mq.inHand == msg
      ensures if old(mq.queue) == [] then
                msg == null && View() == old(View()) && mq.View() == old(mq.View()).(windows := old(mq.windows) + 1)
              else
                && msg != null && WellSent(places, msg.message) && msg.message == old(mq.queue)[0]
                && View() == old(View()).(queue := AllReceived(old(mq.queue)[1..]))
                && mq.View() == old(mq.View()).(queue := old(mq.queue)[1..], windows := old(mq.windows) + 1)
      ensures fresh(mq.owned - old(mq.owned))
    {
      hide MessageQueue.MQ.Valid, AllReceived, Wired, LogTask.LogTask.State, LogTask.LogTask.Valid,
           Control.Control.View, Display.Display.View, TaskRing.TaskManager.Valid;
      msg := mq.Fetch(Replies(places, []));
      ReplyWindow(places, old(mq.View()), []);
      if msg != null {
        ReplyWindow(places, old(mq.View()).(queue := old(mq.queue)[1..]), []);
      }
    }

    method Delete(msg: MessageQueue.MessageNode)
      requires Valid() && mq.inHand == msg
      modifies mq`delivered, mq`trace, mq`inHand
      ensures Valid() && mq.inHand == null && View() == old(View())
      ensures mq.View() == MessageQueue.Discard(old(mq.View()), msg.message)
    {
      hide MessageQueue.MQ.Valid, AllReceived, Wired, LogTask.LogTask.State, LogTask.LogTask.Valid,
           Control.Control.View, Display.Display.View, TaskRing.TaskManager.Valid;
      mq.Delete(msg);
    }

    /** Walks the subscriber list of a message and calls whom it finds there. */
    method Dispatch(m: MessageQueue.Message, at: Arrival) returns (ghost replies: seq<Note>)
      requires Valid() && WellSent(places, m)
      modifies `formatted, `logged, mq, mq.queueBlock, mq.owned, control, display, logger, logger.owned
      ensures Valid() && mq.inHand == old(mq.inHand)
      ensures Wf(old(View())) && View() == Firmware.Handle(old(View()), Received(m), at)
      ensures mq.View() == MessageQueue.CallAll(old(mq.View()), MessageQueue.Listeners(old(mq.table), m.id), m, Replies(places, replies))
      ensures forall n <- logger.owned :: n in old(logger.owned) || fresh(n)
      ensures fresh(mq.owned - old(mq.owned))
    {
      hide Valid, View, Wf, Firmware.Handle, MessageQueue.CallAll, MessageQueue.Call;
      Wellformed();
      var id: nat := m.id;
      ghost var list := mq.lists[id];
      ghost var j := 0;
      ListFacts(m);
      replies := [];
      var curHandler := mq.queueBlock[id];
      while curHandler != null
        invariant j <= |list| <= 1
        invariant Valid() && mq.inHand == old(mq.inHand)
        invariant MessageQueue.Suffix(list, mq.lists[id])
        invariant curHandler == if j < |list| then list[j] else null
        invariant j == 0 ==> View() == old(View()) && mq.View() == old(mq.View())
        invariant j == 1 ==> View() == Firmware.Handle(old(View()), Received(m), at)
        invariant j == 1 ==> mq.View() == MessageQueue.Call(old(mq.View()), list[0].who, m, Replies(places, replies))
        invariant forall n <- logger.owned :: n in old(logger.owned) || fresh(n)
        invariant fresh(mq.owned - old(mq.owned))
        decreases |list| - j
      {
        replies := CallReceiver(curHandler.who, m, at);
        NextFact(id, list, j);
        curHandler := curHandler.next;
        j := j + 1;
      }
      if list == [] {
        NobodyHears(old(View()), Received(m), at);
        NoListeners(old(mq.View()), m, Replies(places, replies));
      } else {
        OneListener(old(mq.View()), list[0].who, m, Replies(places, replies));
      }
    }

    /** The list that a message is dispatched to, as the links show it. */
    lemma ListFacts(m: MessageQueue.Message)
      requires Valid() && WellSent(places, m)
      ensures mq.queueBlock.Length == Subscriptions.MSG_MAX_MSG_IDS
      ensures var list := mq.lists[m.id];
              && mq.queueBlock[m.id] == (if list == [] then null else list[0])
              && |list| == |Receivers(places, m.id)| <= 1
              && (list != [] ==> Receivers(places, m.id) == [list[0].who])
              && mq.table[m.id] == Receivers(places, m.id)
    {
      hide LogTask.LogTask.Valid, TaskRing.TaskManager.Valid, MessageQueue.MQ.QueueValid, MessageQueue.MQ.ListsValid;
      mq.ListAtStart(m.id);
    }

    lemma NextFact(id: nat, list: seq<MessageQueue.HandlerNode>, j: nat)
      requires Valid() && id < Subscriptions.MSG_MAX_MSG_IDS && MessageQueue.Suffix(list, mq.lists[id]) && j < |list|
      ensures list[j].next == if j + 1 < |list| then list[j + 1] else null
    {
      hide LogTask.LogTask.Valid, TaskRing.TaskManager.Valid, MessageQueue.MQ.QueueValid, MessageQueue.MQ.ListsValid;
      mq.NextInList(id, list, j);
    }

    lemma NobodyHears(s: State, n: Note, at: Arrival)
      requires Wf(s) && Receivers(places, n.id) == []
      ensures Firmware.Handle(s, n, at) == s
    {
    }

    /** The receiver of a message handles it, and what it posts joins the queue. */
    method CallReceiver(who: Subscriptions.Subscriber, m: MessageQueue.Message, at: Arrival) returns (ghost replies: seq<Note>)
      requires Valid() && WellSent(places, m) && Receivers(places, m.id) == [who]
      modifies `formatted, `logged, mq, mq.queueBlock, mq.owned, control, display, logger, logger.owned
      ensures Valid() && mq.inHand == old(mq.inHand)
      ensures Wf(old(View())) && View() == Firmware.Handle(old(View()), Received(m), at)
      ensures mq.View() == MessageQueue.Call(old(mq.View()), who, m, Replies(places, replies))
      ensures MessageQueue.Suffix(old(mq.lists[m.id]), mq.lists[m.id])
      ensures forall n <- logger.owned :: n in old(logger.owned) || fresh(n)
      ensures fresh(mq.owned - old(mq.owned))
    {
      hide Valid, View, Wf, Firmware.Handle, MessageQueue.Call, Receivers, Received;
      Wellformed();
      ReceiversAreObjects(places, m);
      var posts := React(who.address, Received(m), at);
      Answer(who, m, posts);
      replies := posts;
    }

    /** The queue's side of a handler call. */
    method Answer(who: Subscriptions.Subscriber, m: MessageQueue.Message, posts: seq<Note>)
      requires Valid() && WellSent(places, m) && AllSendable(posts)
      modifies mq, mq.queueBlock, mq.owned
      ensures Valid() && mq.inHand == old(mq.inHand)
      ensures View() == old(View()).(queue := old(View()).queue + posts)
      ensures mq.View() == MessageQueue.Call(old(mq.View()), who, m, Replies(places, posts))
      ensures MessageQueue.Suffix(old(mq.lists[m.id]), mq.lists[m.id])
      ensures fresh(mq.owned - old(mq.owned))
    {
      hide MessageQueue.MQ.Valid, MessageQueue.DoAll, AllReceived, Wired, Posting, LogTask.LogTask.State, LogTask.LogTask.Valid,
           Control.Control.View, Display.Display.View, TaskRing.TaskManager.Valid;
      PostingAppends(places, mq.View().(trace := mq.trace + [MessageQueue.Called(who, m)], calls := mq.calls + 1), posts);
      mq.CallHandler(who, m, Replies(places, posts));
    }

    /** The event handler of the receiver at this address. */
    method React(address: nat, n: Note, at: Arrival) returns (posts: seq<Note>)
      requires Valid() && Receivers(places, n.id) == [Subscriptions.OfReceiver(address)]
      modifies `formatted, `logged, control, display, logger, logger.owned
      ensures Valid() && AllSendable(posts) && View().queue == old(View()).queue
      ensures Wf(old(View())) && View().(queue := View().queue + posts) == Firmware.Handle(old(View()), n, at)
      ensures forall n <- logger.owned :: n in old(logger.owned) || fresh(n)
    {
      hide Valid, View, Wf, Firmware.Handle;
      Wellformed();
      Who(address, n);
      posts := [];
      if address == places.control {
        posts := ToControl(n, at);
      } else if address == places.display {
        ToDisplay(n, at);
      } else if address == places.logger {
        ToLogger(n, at);
      } else {
        SegmentsKeepNothing(n, at);
      }
      assert View().queue + [] == View().queue;
    }

    lemma Who(address: nat, n: Note)
      requires Valid() && Receivers(places, n.id) == [Subscriptions.OfReceiver(address)]
      ensures address == places.control <==> n.id == MSG_ID_NEW_RPS_ENTERED
      ensures address == places.display <==> n.id == MSG_ID_INIT_COMPLETE || n.id == MSG_ID_NEW_ACTUAL_RPS || n.id == MSG_ID_KEY_PRESSED
      ensures address == places.logger <==> n.id == MSG_ID_DATALOG_LOGEVENT || n.id == MSG_ID_DATALOG_DUMPLOG || n.id == MSG_ID_DATALOG_DELETELOG
    {
      hide MessageQueue.MQ.Valid, LogTask.LogTask.Valid, TaskRing.TaskManager.Valid, Wired, AllWellSent;
    }

    lemma SegmentsKeepNothing(n: Note, at: Arrival)
      requires Valid() && Wf(View()) && n.id != MSG_ID_NEW_RPS_ENTERED
      requires n.id != MSG_ID_INIT_COMPLETE && n.id != MSG_ID_NEW_ACTUAL_RPS && n.id != MSG_ID_KEY_PRESSED
      requires n.id != MSG_ID_DATALOG_LOGEVENT && n.id != MSG_ID_DATALOG_DUMPLOG && n.id != MSG_ID_DATALOG_DELETELOG
      ensures Firmware.Handle(View(), n, at) == View()
    {
      hide Valid, View;
    }

    method ToControl(n: Note, ghost at: Arrival) returns (posts: seq<Note>)
      requires Valid() && Wf(View()) && n.id == MSG_ID_NEW_RPS_ENTERED
      modifies `formatted, control
      ensures Valid() && AllSendable(posts) && View().queue == old(View()).queue
      ensures View().(queue := View().queue + posts) == Firmware.Handle(old(View()), n, at)
    {
      hide LogTask.LogTask.State, LogTask.LogTask.Valid, Display.Display.View, TaskRing.TaskManager.Valid, Control.HandleStep,
           MessageQueue.MQ.Valid, Wired, AllWellSent, AllReceived;
      ControlPosts(control.View(), 0, 0, n.id, Number(n.context));
      posts := control.EventHandler(n.id, Number(n.context));
      if Control.LOG_EVENT_NOTE in posts {
        formatted := formatted + [control.logMessage];
      }
    }

    method ToDisplay(n: Note, ghost at: Arrival)
      requires Valid() && Wf(View())
      requires n.id == MSG_ID_INIT_COMPLETE || n.id == MSG_ID_NEW_ACTUAL_RPS || n.id == MSG_ID_KEY_PRESSED
      modifies display
      ensures Valid() && View() == Firmware.Handle(old(View()), n, at) && View().queue == old(View()).queue
    {
      hide LogTask.LogTask.State, LogTask.LogTask.Valid, Control.Control.View, TaskRing.TaskManager.Valid, Display.HandleStep,
           MessageQueue.MQ.Valid, Wired, AllWellSent, AllReceived;
      display.EventHandler(n.id, Number(n.context));
    }

    method ToLogger(n: Note, at: Arrival)
      requires Valid() && Wf(View())
      requires n.id == MSG_ID_DATALOG_LOGEVENT || n.id == MSG_ID_DATALOG_DUMPLOG || n.id == MSG_ID_DATALOG_DELETELOG
      modifies `logged, logger, logger.owned
      ensures Valid() && View() == Firmware.Handle(old(View()), n, at) && View().queue == old(View()).queue
      ensures forall n <- logger.owned :: n in old(logger.owned) || fresh(n)
    {
      hide Display.Display.View, TaskRing.TaskManager.Valid, LogTask.LogTask.State, LogTask.LogTask.Valid, LogTask.Handle, Firmware.Handle,
           Control.Control.View, Display.Display.Ok,
           MessageQueue.MQ.Valid, Wired, AllWellSent, AllReceived;
      BufferIsThere();
      LoggerHandles(View(), n, at);
      logger.EndIsOwned();
      if n.id == MSG_ID_DATALOG_LOGEVENT {
        logged := logged + [control.logMessage];
      }
      logger.EventHandler(n.id, control.logMessage, at.date, at.junk);
    }

    lemma BufferIsThere()
      requires Valid()
      ensures View().control.buffer == control.logMessage
    {
    }

    /** The composed model hands the logger its messages as the object's event handler takes them. */
    lemma LoggerHandles(s: State, n: Note, at: Arrival)
      requires Wf(s)
      requires n.id == MSG_ID_DATALOG_LOGEVENT || n.id == MSG_ID_DATALOG_DUMPLOG || n.id == MSG_ID_DATALOG_DELETELOG
      ensures Firmware.Handle(s, n, at) ==
                s.(log := LogTask.Handle(s.log, n.id, s.control.buffer, at.date, at.junk),
                   logged := if n.id == MSG_ID_DATALOG_LOGEVENT then s.logged + [s.control.buffer] else s.logged)
    {
    }

    /** The scheduler's turn. */
    method RunNext(now: nat, count: u16, reading: Keypad.Port, bus: Bus, ghost at: Arrival)
      requires Valid()
      modifies `formatted, mq, mq.queueBlock, mq.owned, taskManager, control, control.timer, display, display.userInputValues,
               display.errorTimer, keypad, keypad.keyTimer, logger, logger.e2.bus
      ensures Valid() && mq.inHand == old(mq.inHand)
      ensures Wf(old(View())) && View() == Schedule(old(View()), Input(now, count, reading, bus, at))
    {
      hide Valid, View, Wf, Firmware.RunTask;
      Wellformed();
      var calls := Turn();
      if calls != [] {
        RunTask(calls[0], now, count, reading, bus, at);
      }
    }

    /** The ring moves on by one task. */
    method Turn() returns (calls: seq<nat>)
      requires Valid()
      modifies taskManager
      ensures Valid() && View() == old(View()).(ring := TaskRing.Step(old(View()).ring, _ => []))
      ensures var ring, ring' := old(View()).ring, View().ring;
              calls == if |ring'.calls| > |ring.calls| then [ring'.calls[|ring.calls|]] else []
    {
      hide LogTask.LogTask.State, LogTask.LogTask.Valid, Control.Control.View, Display.Display.View,
           MessageQueue.MQ.Valid, Wired, AllWellSent, AllReceived;
      var before := |taskManager.calls|;
      taskManager.Loop(_ => []);
      calls := if |taskManager.calls| > before then [taskManager.calls[before]] else [];
    }

    method RunTask(task: nat, now: nat, count: u16, reading: Keypad.Port, bus: Bus, ghost at: Arrival)
      requires Valid()
      modifies `formatted, mq, mq.queueBlock, mq.owned, control, control.timer, display, display.userInputValues,
               display.errorTimer, keypad, keypad.keyTimer, logger, logger.e2.bus
      ensures Valid() && mq.inHand == old(mq.inHand)
      ensures Wf(old(View())) && View() == Firmware.RunTask(old(View()), task, Input(now, count, reading, bus, at))
    {
      hide Valid, View, Wf;
      Wellformed();
      Parts();
      if task == CONTROL {
        var posts := RunControl(now, count);
        var _ := PostAll(posts);
      } else if task == LOGGER {
        RunLogger(bus);
      } else if task == DISPLAY {
        var posts := RunDisplay(now);
        var _ := PostAll(posts);
      } else if task == KEYPAD {
        var posts := RunKeypad(reading, now);
        var _ := PostAll(posts);
      }
    }

    lemma Parts()
      requires Valid()
      ensures View().control == control.View() && View().keypad == keypad.View()
      ensures View().display == display.View() && View().log == logger.State()
    {
    }

    method RunControl(now: nat, count: u16) returns (posts: seq<Note>)
      requires Valid()
      modifies `formatted, control, control.timer
      ensures Valid() && AllSendable(posts)
      ensures View().(queue := View().queue + posts) == FromControl(old(View()), Control.TaskStep(old(View()).control, now, count))
      ensures View().queue == old(View()).queue && posts == Control.TaskStep(old(View()).control, now, count).1
    {
      hide LogTask.LogTask.State, LogTask.LogTask.Valid, Display.Display.View, TaskRing.TaskManager.Valid, Control.TaskStep,
           MessageQueue.MQ.Valid, Wired, AllWellSent, AllReceived;
      ControlPosts(control.View(), now, count, 0, 0);
      posts := control.TaskLoop(now, count);
      if Control.LOG_EVENT_NOTE in posts {
        formatted := formatted + [control.logMessage];
      }
    }

    method RunLogger(bus: Bus)
      requires Valid()
      modifies logger, logger.e2.bus
      ensures Valid() && WriterHasMessage(old(View()).log) && View() == old(View()).(log := TaskStep(old(View()).log, IoOf(old(View()).log, bus)))
    {
      hide LogTask.LogTask.State, LogTask.LogTask.Valid, Display.Display.View, Control.Control.View, TaskRing.TaskManager.Valid, TaskStep, IoOf,
           MessageQueue.MQ.Valid, Wired, AllWellSent, AllReceived;
      logger.TaskLoop(bus);
    }

    method RunDisplay(now: nat) returns (posts: seq<Note>)
      requires Valid()
      modifies display, display.userInputValues, display.errorTimer
      ensures Valid() && AllSendable(posts) && Display.CursorOk(old(View()).display)
      ensures var r := Display.TaskStep(old(View()).display, now);
              View() == old(View()).(display := r.0) && posts == r.1
    {
      hide LogTask.LogTask.State, LogTask.LogTask.Valid, Control.Control.View, TaskRing.TaskManager.Valid, Display.TaskStep,
           MessageQueue.MQ.Valid, Wired, AllWellSent, AllReceived;
      DisplayPosts(display.View(), now);
      posts := display.TaskLoop(now);
    }

    method RunKeypad(reading: Keypad.Port, now: nat) returns (posts: seq<Note>)
      requires Valid()
      modifies keypad, keypad.keyTimer
      ensures Valid() && AllSendable(posts)
      ensures var r := Keypad.TaskStep(old(View()).keypad, reading, now);
              View() == old(View()).(keypad := r.0) && posts == r.1
    {
      hide LogTask.LogTask.State, LogTask.LogTask.Valid, Display.Display.View, TaskRing.TaskManager.Valid, Keypad.TaskStep,
           MessageQueue.MQ.Valid, Wired, AllWellSent, AllReceived;
      KeypadPosts(keypad.View(), reading, now);
      posts := keypad.TaskLoop(reading, now);
    }

    lemma Wellformed()
      requires Valid()
      ensures Wf(View())
    {
    }
  }
}
