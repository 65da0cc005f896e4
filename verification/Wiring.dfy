/** How the application hangs on the message queue: who subscribes to what, and how its messages travel. */
module Wiring {
  import opened Bytes
  import opened Messages
  import opened Subscriptions
  import MessageQueue
  import Control
  import Display
  import Keypad

  /** Where the event receivers and the log text buffer lie in memory. */
  datatype Places = Places(logger: nat, control: nat, display: nat, segments: nat, buffer: nat)

  predicate Apart(p: Places) {
    && p.logger != 0 && p.control != 0 && p.display != 0 && p.segments != 0
    && p.logger != p.control && p.logger != p.display && p.logger != p.segments
    && p.control != p.display && p.control != p.segments && p.display != p.segments
  }

  /** The one receiver of a message id, if it is used at all. */
  function Receivers(p: Places, id: int): seq<Subscriber> {
    if id == MSG_ID_UPDATE_7SEG then [OfReceiver(p.segments)]
    else if id == MSG_ID_KEY_PRESSED || id == MSG_ID_INIT_COMPLETE || id == MSG_ID_NEW_ACTUAL_RPS then [OfReceiver(p.display)]
    else if id == MSG_ID_NEW_RPS_ENTERED then [OfReceiver(p.control)]
    else if id == MSG_ID_DATALOG_LOGEVENT || id == MSG_ID_DATALOG_DUMPLOG || id == MSG_ID_DATALOG_DELETELOG
    then [OfReceiver(p.logger)]
    else []
  }

  ghost predicate Wired(p: Places, t: Table) {
    forall id :: 0 <= id < MSG_MAX_MSG_IDS ==> t[id] == Receivers(p, id)
  }

  /** The ids in the order in which the constructors subscribe to them, object by object. */
  const BOOT_IDS: seq<nat> :=
    [MSG_ID_DATALOG_LOGEVENT, MSG_ID_DATALOG_DUMPLOG, MSG_ID_DATALOG_DELETELOG, // logger
     MSG_ID_NEW_RPS_ENTERED,                                                    // control
     MSG_ID_INIT_COMPLETE, MSG_ID_NEW_ACTUAL_RPS, MSG_ID_KEY_PRESSED,           // display
     MSG_ID_UPDATE_7SEG]                                                        // seven-segment display

  lemma BootIdsAreUsed(p: Places, id: nat)
    ensures id in BOOT_IDS ==> id < MSG_MAX_MSG_IDS && |Receivers(p, id)| == 1
    ensures id !in BOOT_IDS ==> Receivers(p, id) == []
  {
  }

  lemma BootIdsDiffer(i: nat, j: nat)
    requires i < j < |BOOT_IDS|
    ensures BOOT_IDS[i] != BOOT_IDS[j]
  {
  }

  /** The table after the first `n` of these calls. */
  ghost predicate WiredSoFar(p: Places, n: nat, t: Table)
    requires n <= |BOOT_IDS|
  {
    forall id :: 0 <= id < MSG_MAX_MSG_IDS ==> t[id] == if id in BOOT_IDS[..n] then Receivers(p, id) else []
  }

  /** One more call: its id had no subscriber yet, so it is not refused. */
  lemma OneMoreWired(p: Places, n: nat, t: Table)
    requires Apart(p) && n < |BOOT_IDS| && WiredSoFar(p, n, t)
    ensures var id := BOOT_IDS[n];
            && |Receivers(p, id)| == 1
            && Admits(t, id, Receivers(p, id)[0])
            && WiredSoFar(p, n + 1, Apply(t, Add(id, Receivers(p, id)[0])))
  {
    hide Receivers;
    var id := BOOT_IDS[n];
    BootIdsAreUsed(p, id);
    ReceiversExist(p, id);
    forall i | 0 <= i < n
      ensures BOOT_IDS[i] != id
    {
      BootIdsDiffer(i, n);
    }
    assert BOOT_IDS[..n + 1] == BOOT_IDS[..n] + [id];
    assert t[id] == [];
    assert [Receivers(p, id)[0]] + [] == Receivers(p, id);
  }

  lemma ReceiversExist(p: Places, id: int)
    requires Apart(p)
    ensures forall who <- Receivers(p, id) :: who.address != 0
  {
  }

  /** After all of them every message id that is used has one subscriber, and no other id has any. */
  lemma BootTable(p: Places, t: Table)
    requires WiredSoFar(p, |BOOT_IDS|, t)
    ensures Wired(p, t)
  {
    hide Receivers;
    assert BOOT_IDS[..|BOOT_IDS|] == BOOT_IDS;
    forall id: nat | id < MSG_MAX_MSG_IDS
      ensures t[id] == Receivers(p, id)
    {
      BootIdsAreUsed(p, id);
    }
  }

  // ---------- Messages on the wire ----------

  /** A number, or the address of the text buffer; the poster owns it. */
  function OnWire(p: Places, n: Note): MessageQueue.Message {
    MessageQueue.Message(n.id, if n.context.Value? then n.context.w else p.buffer, MessageQueue.Caller)
  }

  /** What a receiver makes of a message: log messages carry a text, all others a number. */
  function Received(m: MessageQueue.Message): Note {
    Note(if m.id < 0 then 0 else m.id,
         if m.id == MSG_ID_DATALOG_LOGEVENT then LogBuffer else Value(m.context % 65536))
  }

  function AllReceived(ms: seq<MessageQueue.Message>): (ns: seq<Note>)
    ensures |ns| == |ms|
  {
    seq(|ms|, i requires 0 <= i < |ms| => Received(ms[i]))
  }

  /** The messages that the application posts: their ids are small, and text goes with log messages only. */
  predicate Sendable(n: Note) {
    n.id < MSG_MAX_MSG_IDS && (n.id == MSG_ID_DATALOG_LOGEVENT <==> n.context.LogBuffer?)
  }

  predicate AllSendable(ns: seq<Note>) { forall n <- ns :: Sendable(n) }

  /** Every message a receiver may find: log messages point to the buffer, none is owned by the queue. */
  predicate WellSent(p: Places, m: MessageQueue.Message) {
    && 0 <= m.id < MSG_MAX_MSG_IDS && m.owner == MessageQueue.Caller
    && (m.id == MSG_ID_DATALOG_LOGEVENT ==> m.context == p.buffer)
  }

  predicate AllWellSent(p: Places, ms: seq<MessageQueue.Message>) { forall m <- ms :: WellSent(p, m) }

  /** What is sent is what is received. */
  lemma WireRoundTrip(p: Places, n: Note)
    requires Sendable(n)
    ensures Received(OnWire(p, n)) == n && WellSent(p, OnWire(p, n)) && MessageQueue.Postable(OnWire(p, n))
  {
  }

  lemma ReceivedConcat(a: seq<MessageQueue.Message>, b: seq<MessageQueue.Message>)
    ensures AllReceived(a + b) == AllReceived(a) + AllReceived(b)
  {
  }

  lemma ReceivedHead(ms: seq<MessageQueue.Message>)
    ensures ms != [] ==> AllReceived(ms)[0] == Received(ms[0]) && AllReceived(ms)[1..] == AllReceived(ms[1..])
  {
  }

  lemma ReceiversAreObjects(p: Places, m: MessageQueue.Message)
    requires WellSent(p, m)
    ensures Received(m).id == m.id
    ensures forall who <- Receivers(p, m.id) :: who == OfReceiver(who.address)
  {
  }

  /** A handler that posts these messages and does nothing else to the queue. */
  function Posting(p: Places, ns: seq<Note>): (actions: seq<MessageQueue.Action>)
    ensures |actions| == |ns|
  {
    seq(|ns|, i requires 0 <= i < |ns| => MessageQueue.Action.Post(OnWire(p, ns[i])))
  }

  /** The outside world during one delivery: no interrupts, and each handler posts these. */
  function Replies(p: Places, ns: seq<Note>): MessageQueue.Outside {
    MessageQueue.Outside(_ => [], _ => Posting(p, ns))
  }

  /** Posting notes appends them to what is queued and leaves the subscriptions alone. */
  lemma {:induction false} PostingAppends(p: Places, s: MessageQueue.State, ns: seq<Note>)
    requires AllSendable(ns) && AllWellSent(p, s.queue)
    ensures var t := MessageQueue.DoAll(s, Posting(p, ns));
            && t.table == s.table && AllWellSent(p, t.queue)
            && AllReceived(t.queue) == AllReceived(s.queue) + ns
    decreases |ns|
  {
    if ns == [] {
      assert AllReceived(s.queue) + ns == AllReceived(s.queue);
    } else {
      var m := OnWire(p, ns[0]);
      var t := MessageQueue.DoPost(s, m);
      WireRoundTrip(p, ns[0]);
      ReceivedConcat(s.queue, [m]);
      assert AllReceived([m]) == [ns[0]];
      assert Posting(p, ns)[0] == MessageQueue.Action.Post(m) && Posting(p, ns)[1..] == Posting(p, ns[1..]);
      PostingAppends(p, t, ns[1..]);
      assert AllReceived(s.queue) + [ns[0]] + ns[1..] == AllReceived(s.queue) + ns;
    }
  }

  lemma ReplyWindow(p: Places, s: MessageQueue.State, ns: seq<Note>)
    ensures MessageQueue.Open(s, Replies(p, ns)) == s.(windows := s.windows + 1)
  {
  }

  lemma NoListeners(s: MessageQueue.State, m: MessageQueue.Message, outside: MessageQueue.Outside)
    ensures MessageQueue.CallAll(s, [], m, outside) == s
  {
  }

  lemma OneListener(s: MessageQueue.State, who: Subscriber, m: MessageQueue.Message, outside: MessageQueue.Outside)
    ensures MessageQueue.CallAll(s, [who], m, outside) == MessageQueue.Call(s, who, m, outside)
  {
    assert [who][1..] == [];
    NoListeners(MessageQueue.Call(s, who, m, outside), m, outside);
  }

  // ---------- What the application posts ----------

  lemma ControlPosts(c: Control.State, now: nat, count: u16, id: int, w: u16)
    ensures AllSendable(Control.TaskStep(c, now, count).1) && AllSendable(Control.HandleStep(c, id, w).1)
  {
    hide Control.LogText, Control.Adjusted;
  }

  lemma DisplayPosts(d: Display.State, now: nat)
    requires Display.CursorOk(d)
    ensures AllSendable(Display.TaskStep(d, now).1)
  {
  }

  lemma KeypadPosts(k: Keypad.State, reading: Keypad.Port, now: nat)
    ensures AllSendable(Keypad.TaskStep(k, reading, now).1)
  {
    hide Keypad.KeyOf;
  }
}
