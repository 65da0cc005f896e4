/** The kernel's message queue: a linked FIFO that handlers and interrupts post into while it is
    being emptied, and the linked subscriber lists it dispatches to. */
module MessageQueue {
  import opened Subscriptions

  const MSG_ID_NOMESSAGE := -1

  type PostId = i: int | MSG_ID_NOMESSAGE <= i witness 0

  datatype Owner = Caller | Queue

  /** `context` is the address handed to the handlers, 0 for NULL. */
  datatype Message = Message(id: PostId, context: nat, owner: Owner)

  /** What a handler (or an interrupt that strikes while it runs) may do to the queue. */
  datatype Action = Post(message: Message) | Subscribe(id: nat, who: Subscriber)

  /** Everything outside the queue: the posts of interrupts in the n-th window between taking a
      message and dispatching it, and the actions during the n-th handler call. */
  datatype Outside = Outside(interrupts: nat -> seq<Message>, handlers: nat -> seq<Action>)

  datatype Effect = Called(who: Subscriber, message: Message) | Freed(context: nat)

  datatype State = State(
    table: Table,
    queue: seq<Message>,
    posted: seq<Message>,     // all posts accepted so far
    delivered: seq<Message>,  // all messages dispatched and deleted so far
    trace: seq<Effect>,
    windows: nat,
    calls: nat)

  // ---------- Specification ----------

  predicate Postable(m: Message) { m.id < MSG_MAX_MSG_IDS && m.id != MSG_ID_NOMESSAGE }

  function DoPost(s: State, m: Message): State {
    if Postable(m) then s.(queue := s.queue + [m], posted := s.posted + [m]) else s
  }

  function Do(s: State, a: Action): State {
    match a
    case Post(m) => DoPost(s, m)
    case Subscribe(id, who) => s.(table := Apply(s.table, Add(id, who)))
  }

  function DoAll(s: State, actions: seq<Action>): State
    decreases |actions|
  {
    if actions == [] then s else DoAll(Do(s, actions[0]), actions[1..])
  }

  function PostAll(s: State, ms: seq<Message>): State
    decreases |ms|
  {
    if ms == [] then s else PostAll(DoPost(s, ms[0]), ms[1..])
  }

  function Call(s: State, who: Subscriber, m: Message, outside: Outside): State {
    DoAll(s.(trace := s.trace + [Called(who, m)], calls := s.calls + 1), outside.handlers(s.calls))
  }

  function CallAll(s: State, whos: seq<Subscriber>, m: Message, outside: Outside): State
    decreases |whos|
  {
    if whos == [] then s else CallAll(Call(s, whos[0], m, outside), whos[1..], m, outside)
  }

  function Listeners(t: Table, id: int): seq<Subscriber> {
    if 0 <= id < MSG_MAX_MSG_IDS then t[id] else []
  }

  function Discard(s: State, m: Message): State {
    s.(delivered := s.delivered + [m],
       trace := s.trace + if m.owner != Caller && m.context != 0 then [Freed(m.context)] else [])
  }

  /** Interrupts are enabled again, and may post. */
  function Open(s: State, outside: Outside): State {
    PostAll(s.(windows := s.windows + 1), outside.interrupts(s.windows))
  }

  function Deliver(s: State, m: Message, outside: Outside): State {
    Discard(CallAll(s, Listeners(s.table, m.id), m, outside), m)
  }

  /** One round: take the first message, let interrupts in, call its subscribers, delete it. */
  function Round(s: State, outside: Outside): State {
    if s.queue == [] then Open(s, outside)
    else Deliver(Open(s.(queue := s.queue[1..]), outside), s.queue[0], outside)
  }

  function Rounds(s: State, n: nat, outside: Outside): State
    decreases n
  {
    if n == 0 then s else Rounds(Round(s, outside), n - 1, outside)
  }

  // ---------- The linked structures ----------

  class MessageNode {
    const message: Message
    var next: MessageNode?

    constructor (message: Message)
      ensures this.message == message && next == null
    {
      this.message := message;
      next := null;
    }
  }

  class HandlerNode {
    const who: Subscriber
    ghost const list: nat
    ghost const serial: nat
    var next: HandlerNode?

    constructor (who: Subscriber, next: HandlerNode?, ghost list: nat, ghost serial: nat)
      ensures this.who == who && this.next == next && this.list == list && this.serial == serial
    {
      this.who := who;
      this.next := next;
      this.list := list;
      this.serial := serial;
    }
  }

  type Lists = l: seq<seq<HandlerNode>> | |l| == MSG_MAX_MSG_IDS
    ghost witness seq<seq<HandlerNode>>(MSG_MAX_MSG_IDS, _ => [])

  class MQ {
    const queueBlock: array<HandlerNode?>
    var first: MessageNode?
    var last: MessageNode?
    var windows: nat // how far the outside world has got
    var calls: nat

    ghost var owned: set<MessageNode>   // the nodes of the queue
    ghost var inHand: MessageNode?      // the node taken off the queue and not yet deleted
    ghost var chain: seq<MessageNode>
    ghost var queue: seq<Message>
    ghost var lists: Lists
    ghost var nodes: set<HandlerNode>
    ghost var stamp: nat
    ghost var table: Table
    ghost var posted: seq<Message>
    ghost var delivered: seq<Message>
    ghost var trace: seq<Effect>

    /** Node `i` of the queue: what it carries, where it links, and that it does not occur again. */
    ghost predicate LinkValid(i: nat)
      reads `chain, `queue, `owned, owned
    {
      && i < |chain| && i < |queue|
      && chain[i] in owned && chain[i].message == queue[i] && Postable(queue[i])
      && chain[i].next == (if i + 1 < |chain| then chain[i + 1] else null)
      && (forall k :: i < k < |chain| ==> chain[k] != chain[i])
    }

    /** First is null iff Last is, and Last ends the acyclic chain that starts at First. */
    ghost predicate QueueValid()
      reads `first, `last, `chain, `queue, `owned, owned
    {
      && |queue| == |chain|
      && (forall i :: 0 <= i < |chain| ==> LinkValid(i))
      && (forall n <- owned :: n in chain)
      && (if chain == [] then first == null && last == null
          else first == chain[0] && last == chain[|chain| - 1])
    }

    /** Node `j` of list `id`: who it calls, where it links, and its place among all nodes. The
        serial numbers fall along a list, and every node knows its list: so the lists are acyclic
        and share no node. */
    ghost predicate NodeValid(id: nat, j: nat)
      requires id < |lists| && j < |lists[id]|
      reads `lists, `nodes, `stamp, `table, nodes
    {
      var list := lists[id];
      && list[j] in nodes
      && list[j].list == id && list[j].serial < stamp
      && id < MSG_MAX_MSG_IDS && j < |table[id]| && list[j].who == table[id][j]
      && list[j].next == (if j + 1 < |list| then list[j + 1] else null)
      && (forall k :: j < k < |list| ==> list[k].serial < list[j].serial)
    }

    ghost predicate ListsValid()
      reads `lists, `nodes, `stamp, `table, queueBlock, nodes
    {
      && queueBlock.Length == MSG_MAX_MSG_IDS
      && (forall id :: 0 <= id < MSG_MAX_MSG_IDS ==> |lists[id]| == |table[id]|)
      && (forall id :: 0 <= id < MSG_MAX_MSG_IDS ==>
            queueBlock[id] == if lists[id] == [] then null else lists[id][0])
      && (forall id, j :: 0 <= id < MSG_MAX_MSG_IDS && 0 <= j < |lists[id]| ==> NodeValid(id, j))
    }

    ghost predicate Valid()
      reads this, queueBlock, owned, nodes
    {
      QueueValid() && ListsValid()
    }

    ghost function View(): State
      reads this
    {
      State(table, queue, posted, delivered, trace, windows, calls)
    }

    constructor ()
      ensures Valid()
      ensures View() == State(EmptyTable(), [], [], [], [], 0, 0) && inHand == null
      ensures fresh(queueBlock) && owned == {} && nodes == {}
    {
      queueBlock := new HandlerNode?[MSG_MAX_MSG_IDS](_ => null);
      first, last := null, null;
      chain, queue, owned, inHand := [], [], {}, null;
      lists, nodes, stamp := seq(MSG_MAX_MSG_IDS, _ => []), {}, 0;
      table := EmptyTable();
      posted, delivered, trace, windows, calls := [], [], [], 0, 0;
    }

    method Post(message: Message) returns (rc: int)
      requires Valid()
      modifies `first, `last, `chain, `queue, `owned, `posted, owned
      ensures Valid()
      ensures View() == DoPost(old(View()), message)
      ensures rc == if Postable(message) then 0 else -1
      ensures inHand == old(inHand)
      ensures old(owned) <= owned && fresh(owned - old(owned))
    {
      hide QueueValid, ListsValid;
      rc := -1;
      if message.id < MSG_MAX_MSG_IDS && message.id != MSG_ID_NOMESSAGE {
        var newMessage := new MessageNode(message);
        Attach(newMessage);
        posted := posted + [message];
        rc := 0;
      }
    }

    method Attach(newMessage: MessageNode)
      requires QueueValid() && Postable(newMessage.message)
      requires newMessage !in owned && newMessage.next == null
      modifies `first, `last, `chain, `queue, `owned, owned
      ensures QueueValid()
      ensures inHand == old(inHand)
      ensures queue == old(queue) + [newMessage.message] && owned == old(owned) + {newMessage}
    {
      assert |chain| > 0 ==> LinkValid(|chain| - 1);
      if first == null {
        first := newMessage;
        last := newMessage;
      } else {
        last.next := newMessage;
        last := newMessage;
      }
      chain, queue := chain + [newMessage], queue + [newMessage.message];
      owned := owned + {newMessage};
      forall i | 0 <= i < |chain|
        ensures LinkValid(i)
      {
        if i < |chain| - 1 {
          assert old(LinkValid(i));
        }
      }
    }

    /** Unlinks the first message. */
    method Take() returns (msg: MessageNode)
      requires Valid() && first != null && inHand == null
      modifies `first, `last, `chain, `queue, `owned, `inHand
      ensures Valid() && inHand == msg
      ensures owned == old(owned) - {msg}
      ensures msg.message == old(queue)[0] && queue == old(queue)[1..]
      ensures 0 <= msg.message.id < MSG_MAX_MSG_IDS
    {
      hide ListsValid;
      msg := first;
      assert LinkValid(0);
      first := msg.next;
      if first == null {
        last := null;
      }
      chain, queue := chain[1..], queue[1..];
      owned, inHand := owned - {msg}, msg;
      forall i | 0 <= i < |chain|
        ensures LinkValid(i)
      {
        assert old(LinkValid(i + 1));
      }
    }

    /** The search that `Subscribe` and `Unsubscribe` begin with: the node that carries `address`,
        or null, and the node before it. */
    method Find(id: nat, address: nat) returns (prev: HandlerNode?, found: HandlerNode?, ghost p: nat)
      requires Valid() && id < MSG_MAX_MSG_IDS
      ensures p == Position(table[id], address) <= |lists[id]|
      ensures found == if p < |lists[id]| then lists[id][p] else null
      ensures prev == if 0 < p then lists[id][p - 1] else null
    {
      hide QueueValid;
      prev, found, p := null, queueBlock[id], 0;
      while found != null
        invariant p <= |lists[id]|
        invariant found == if p < |lists[id]| then lists[id][p] else null
        invariant prev == if 0 < p then lists[id][p - 1] else null
        invariant forall i :: 0 <= i < p ==> table[id][i].address != address
        decreases |lists[id]| - p
      {
        assert NodeValid(id, p);
        if found.who.address == address {
          break;
        }
        prev, found, p := found, found.next, p + 1;
      }
      PositionIs(table[id], address, p);
    }

    method Subscribe(id: nat, who: Subscriber) returns (rc: int)
      requires Valid()
      modifies `lists, `nodes, `stamp, `table, queueBlock
      ensures Valid()
      ensures table == Apply(old(table), Add(id, who))
      ensures rc == if Admits(old(table), id, who) then 0 else -1
      ensures forall i :: 0 <= i < MSG_MAX_MSG_IDS ==> Suffix(old(lists[i]), lists[i])
      ensures old(nodes) <= nodes && fresh(nodes - old(nodes))
    {
      hide QueueValid;
      rc := -1;
      if id < MSG_MAX_MSG_IDS && who.address != 0 {
        var _, found, p := Find(id, who.address);
        HasPosition(table[id], who.address);
        if found == null {
          Prepend(id, who);
          rc := 0;
        }
      }
    }

    method Prepend(id: nat, who: Subscriber)
      requires ListsValid() && id < MSG_MAX_MSG_IDS
      modifies `lists, `nodes, `stamp, `table, queueBlock
      ensures ListsValid()
      ensures table == old(table)[id := [who] + old(table)[id]]
      ensures forall i :: 0 <= i < MSG_MAX_MSG_IDS ==> Suffix(old(lists[i]), lists[i])
      ensures old(nodes) <= nodes && fresh(nodes - old(nodes))
    {
      var node := new HandlerNode(who, queueBlock[id], id, stamp);
      queueBlock[id] := node;
      lists := lists[id := [node] + lists[id]];
      table := table[id := [who] + table[id]];
      nodes, stamp := nodes + {node}, stamp + 1;
      forall i, j | 0 <= i < MSG_MAX_MSG_IDS && 0 <= j < |lists[i]|
        ensures NodeValid(i, j)
      {
        if i != id {
          assert old(NodeValid(i, j));
        } else {
          assert j > 0 ==> old(NodeValid(i, j - 1));
          forall k | j < k < |lists[i]|
            ensures lists[i][k].serial < lists[i][j].serial
          {
            assert lists[i][k] == old(lists[i])[k - 1];
            assert old(NodeValid(i, k - 1));
          }
        }
      }
    }

    method Unsubscribe(id: nat, address: nat) returns (rc: int)
      requires Valid()
      modifies `lists, `nodes, `table, queueBlock, nodes
      ensures Valid()
      ensures table == Apply(old(table), Drop(id, address))
      ensures rc == if id < MSG_MAX_MSG_IDS && Has(old(table)[id], address) then 0 else -1
      ensures nodes <= old(nodes)
    {
      hide QueueValid;
      rc := -1;
      if id < MSG_MAX_MSG_IDS {
        var prev, found, p := Find(id, address);
        HasPosition(table[id], address);
        if found != null {
          Unlink(id, prev, found, p);
          rc := 0;
        }
        RemoveIs(old(table[id]), address);
      }
    }

    method Unlink(id: nat, prev: HandlerNode?, found: HandlerNode, ghost p: nat)
      requires ListsValid() && id < MSG_MAX_MSG_IDS && p < |lists[id]|
      requires found == lists[id][p] && prev == if 0 < p then lists[id][p - 1] else null
      modifies `lists, `nodes, `table, queueBlock, nodes
      ensures ListsValid()
      ensures table == old(table)[id := old(table)[id][..p] + old(table)[id][p + 1..]]
      ensures nodes == old(nodes) - {found}
    {
      assert NodeValid(id, p) && (0 < p ==> NodeValid(id, p - 1));
      hide ListsValid;
      if prev == null {
        UnlinkFirst(id, found);
      } else {
        UnlinkInner(id, prev, found, p);
      }
    }

    method UnlinkFirst(id: nat, found: HandlerNode)
      requires ListsValid() && id < MSG_MAX_MSG_IDS && 0 < |lists[id]| && found == lists[id][0]
      modifies `lists, `nodes, `table, queueBlock
      ensures ListsValid()
      ensures table == old(table)[id := old(table)[id][..0] + old(table)[id][1..]]
      ensures nodes == old(nodes) - {found}
    {
      assert NodeValid(id, 0);
      queueBlock[id] := found.next;
      assert lists[id][..0] + lists[id][1..] == lists[id][1..] && table[id][..0] + table[id][1..] == table[id][1..];
      lists := lists[id := lists[id][1..]];
      table := table[id := table[id][1..]];
      nodes := nodes - {found};
      forall i, j | 0 <= i < MSG_MAX_MSG_IDS && 0 <= j < |lists[i]|
        ensures NodeValid(i, j)
      {
        if i != id {
          assert old(NodeValid(i, j));
        } else {
          assert old(NodeValid(id, j + 1));
        }
      }
    }

    method UnlinkInner(id: nat, prev: HandlerNode, found: HandlerNode, ghost p: nat)
      requires ListsValid() && id < MSG_MAX_MSG_IDS && 0 < p < |lists[id]|
      requires found == lists[id][p] && prev == lists[id][p - 1]
      modifies `lists, `nodes, `table, prev
      ensures ListsValid()
      ensures table == old(table)[id := old(table)[id][..p] + old(table)[id][p + 1..]]
      ensures nodes == old(nodes) - {found}
    {
      assert NodeValid(id, p) && NodeValid(id, p - 1);
      prev.next := found.next;
      lists := lists[id := lists[id][..p] + lists[id][p + 1..]];
      table := table[id := table[id][..p] + table[id][p + 1..]];
      nodes := nodes - {found};
      forall i, j | 0 <= i < MSG_MAX_MSG_IDS && 0 <= j < |lists[i]| && i != id
        ensures NodeValid(i, j)
      {
        assert old(NodeValid(i, j));
      }
      forall j | 0 <= j < |lists[id]|
        ensures NodeValid(id, j)
      {
        assert old(NodeValid(id, Shift(j, p)));
      }
    }

    method UnsubscribeAllIDs(address: nat)
      requires Valid()
      modifies `lists, `nodes, `table, queueBlock, nodes
      ensures Valid()
      ensures table == DropAll(old(table), address, MSG_MAX_MSG_IDS)
    {
      for idx := 0 to MSG_MAX_MSG_IDS
        invariant Valid()
        invariant table == DropAll(old(table), address, idx)
        invariant nodes <= old(nodes)
      {
        var _ := Unsubscribe(idx, address);
      }
    }

    /** What a handler does during its call. */
    method Perform(actions: seq<Action>)
      requires Valid()
      modifies this, queueBlock, owned
      ensures Valid() && View() == DoAll(old(View()), actions)
      ensures inHand == old(inHand)
      ensures old(owned) <= owned && fresh(owned - old(owned))
      ensures forall i :: 0 <= i < MSG_MAX_MSG_IDS ==> Suffix(old(lists[i]), lists[i])
    {
      hide QueueValid, ListsValid, Apply;
      assert actions[0..] == actions;
      for k := 0 to |actions|
        invariant Valid() && DoAll(View(), actions[k..]) == DoAll(old(View()), actions)
        invariant old(owned) <= owned && fresh(owned - old(owned))
        invariant inHand == old(inHand)
        invariant forall i :: 0 <= i < MSG_MAX_MSG_IDS ==> Suffix(old(lists[i]), lists[i])
      {
        assert actions[k..][1..] == actions[k + 1..];
        ghost var before := lists;
        match actions[k] {
          case Post(m) => var _ := Post(m);
          case Subscribe(id, who) => var _ := Subscribe(id, who);
        }
        forall i | 0 <= i < MSG_MAX_MSG_IDS
          ensures Suffix(old(lists[i]), lists[i])
        {
          SuffixTrans(old(lists[i]), before[i], lists[i]);
        }
      }
    }

    /** Interrupts that strike between taking a message and dispatching it. */
    method Interrupts(posts: seq<Message>)
      requires Valid()
      modifies `first, `last, `chain, `queue, `owned, `posted, owned
      ensures Valid() && View() == PostAll(old(View()), posts)
      ensures inHand == old(inHand)
      ensures old(owned) <= owned && fresh(owned - old(owned))
    {
      hide QueueValid, ListsValid;
      assert posts[0..] == posts;
      for k := 0 to |posts|
        invariant Valid() && PostAll(View(), posts[k..]) == PostAll(old(View()), posts)
        invariant old(owned) <= owned && fresh(owned - old(owned))
        invariant inHand == old(inHand)
      {
        assert posts[k..][1..] == posts[k + 1..];
        var _ := Post(posts[k]);
      }
    }

    method CallHandler(who: Subscriber, message: Message, outside: Outside)
      requires Valid()
      modifies this, queueBlock, owned
      ensures Valid() && View() == Call(old(View()), who, message, outside)
      ensures inHand == old(inHand)
      ensures old(owned) <= owned && fresh(owned - old(owned))
      ensures forall i :: 0 <= i < MSG_MAX_MSG_IDS ==> Suffix(old(lists[i]), lists[i])
    {
      hide QueueValid, ListsValid, DoAll;
      trace := trace + [Called(who, message)];
      var n := calls;
      calls := calls + 1;
      Perform(outside.handlers(n));
    }

    /** A list that new subscribers were prepended to still links as it did. */
    lemma NextInList(id: nat, list: seq<HandlerNode>, j: nat)
      requires ListsValid() && id < MSG_MAX_MSG_IDS && Suffix(list, lists[id]) && j < |list|
      ensures list[j].next == if j + 1 < |list| then list[j + 1] else null
    {
      SuffixAt(list, lists[id], j);
      assert NodeValid(id, |lists[id]| - |list| + j);
    }

    lemma ListAtStart(id: nat)
      requires ListsValid() && id < MSG_MAX_MSG_IDS
      ensures |lists[id]| == |table[id]| && queueBlock.Length == MSG_MAX_MSG_IDS
      ensures queueBlock[id] == if lists[id] == [] then null else lists[id][0]
      ensures forall i :: 0 <= i < |lists[id]| ==> lists[id][i].who == table[id][i]
    {
      forall i | 0 <= i < |lists[id]|
        ensures lists[id][i].who == table[id][i]
      {
        assert NodeValid(id, i);
      }
    }

    /** Calls the subscribers of a message, following the links as they are at each step. */
    method Dispatch(message: Message, outside: Outside)
      requires Valid() && 0 <= message.id < MSG_MAX_MSG_IDS
      modifies this, queueBlock, owned
      ensures Valid() && View() == CallAll(old(View()), old(table)[message.id], message, outside)
      ensures inHand == old(inHand)
      ensures old(owned) <= owned && fresh(owned - old(owned))
    {
      hide QueueValid, ListsValid, Call;
      var id: nat := message.id;
      ghost var list, whos := lists[id], table[id];
      ghost var j := 0;
      ListAtStart(id);
      var curHandler := queueBlock[id];
      assert whos[0..] == whos;
      while curHandler != null
        invariant Valid() && j <= |list| == |whos|
        invariant forall i :: 0 <= i < |list| ==> list[i].who == whos[i]
        invariant Suffix(list, lists[id])
        invariant curHandler == if j < |list| then list[j] else null
        invariant CallAll(View(), whos[j..], message, outside) == CallAll(old(View()), whos, message, outside)
        invariant inHand == old(inHand)
        invariant old(owned) <= owned && fresh(owned - old(owned))
        decreases |list| - j
      {
        assert whos[j..][0] == whos[j] && whos[j..][1..] == whos[j + 1..];
        ghost var before := lists[id];
        CallHandler(curHandler.who, message, outside);
        SuffixTrans(list, before, lists[id]);
        NextInList(id, list, j);
        curHandler := curHandler.next;
        j := j + 1;
      }
    }

    method OneRound(outside: Outside)
      requires Valid() && inHand == null
      modifies this, queueBlock, owned
      ensures Valid() && View() == Round(old(View()), outside)
      ensures inHand == null
      ensures fresh(owned - old(owned))
    {
      hide QueueValid, ListsValid, Open, Deliver;
      var msg := Fetch(outside);
      if msg != null {
        Process(msg, outside);
      }
    }

    lemma EmptyIff()
      requires QueueValid()
      ensures first == null <==> queue == []
    {
    }

    /** Pops the first message, if there is one, with interrupts disabled; then enables them. */
    method Fetch(outside: Outside) returns (msg: MessageNode?)
      requires Valid() && inHand == null
      modifies `first, `last, `chain, `queue, `owned, `posted, `windows, `inHand, owned
      ensures Valid() && inHand == msg
      ensures if old(queue) == [] then msg == null && View() == Open(old(View()), outside)
              else msg != null && msg.message == old(queue)[0] && 0 <= msg.message.id < MSG_MAX_MSG_IDS
                   && View() == Open(old(View()).(queue := old(queue)[1..]), outside)
      ensures fresh(owned - old(owned))
    {
      hide QueueValid, ListsValid, Open;
      EmptyIff();
      msg := null;
      if first != null {
        msg := Take();
      }
      Window(outside);
    }

    /** Interrupts are enabled again. */
    method Window(outside: Outside)
      requires Valid()
      modifies `first, `last, `chain, `queue, `owned, `posted, `windows, owned
      ensures Valid() && View() == Open(old(View()), outside)
      ensures old(owned) <= owned && fresh(owned - old(owned))
      ensures inHand == old(inHand)
    {
      hide QueueValid, ListsValid, PostAll;
      var w := windows;
      windows := windows + 1;
      Interrupts(outside.interrupts(w));
    }

    /** Dispatches and deletes a message that was taken off the queue. */
    method Process(msg: MessageNode, outside: Outside)
      requires Valid() && inHand == msg && 0 <= msg.message.id < MSG_MAX_MSG_IDS
      modifies this, queueBlock, owned
      ensures Valid() && View() == Deliver(old(View()), msg.message, outside)
      ensures inHand == null
      ensures fresh(owned - old(owned))
    {
      hide QueueValid, ListsValid, CallAll, Discard;
      Dispatch(msg.message, outside);
      Delete(msg);
    }

    /** Frees the context of a message that owns one, then the message. */
    method Delete(msg: MessageNode)
      requires Valid() && inHand == msg
      modifies `delivered, `trace, `inHand
      ensures Valid() && View() == Discard(old(View()), msg.message)
      ensures inHand == null
    {
      hide QueueValid, ListsValid;
      if msg.message.owner != Caller {
        if msg.message.context != 0 {
          trace := trace + [Freed(msg.message.context)];
        }
      }
      delivered := delivered + [msg.message];
      inHand := null;
    }

    /** Processes up to `maxMessages` messages. */
    method Loop(maxMessages: nat, outside: Outside)
      requires Valid() && inHand == null
      modifies this, queueBlock, owned
      ensures Valid() && View() == Rounds(old(View()), maxMessages, outside)
      ensures inHand == null
      ensures fresh(owned - old(owned))
    {
      hide QueueValid, ListsValid, Round;
      var left := maxMessages;
      while left != 0
        invariant Valid() && inHand == null
        invariant Rounds(View(), left, outside) == Rounds(old(View()), maxMessages, outside)
        invariant fresh(owned - old(owned))
      {
        OneRound(outside);
        left := left - 1;
      }
    }
  }

  ghost predicate Suffix<T>(s: seq<T>, t: seq<T>) {
    |s| <= |t| && t[|t| - |s|..] == s
  }

  lemma SuffixTrans<T>(s: seq<T>, t: seq<T>, u: seq<T>)
    requires Suffix(s, t) && Suffix(t, u)
    ensures Suffix(s, u)
  {
  }

  lemma SuffixAt<T>(s: seq<T>, t: seq<T>, j: nat)
    requires Suffix(s, t) && j < |s|
    ensures s[j] == t[|t| - |s| + j]
    ensures j + 1 < |s| ==> s[j + 1] == t[|t| - |s| + j + 1]
  {
  }

  lemma PositionIs(list: seq<Subscriber>, address: nat, p: nat)
    requires p <= |list| && (forall i :: 0 <= i < p ==> list[i].address != address)
    requires p < |list| ==> list[p].address == address
    ensures p == Position(list, address)
  {
  }

  lemma HasPosition(list: seq<Subscriber>, address: nat)
    ensures Has(list, address) <==> Position(list, address) < |list|
  {
  }

  lemma RemoveIs(list: seq<Subscriber>, address: nat)
    ensures var p := Position(list, address);
            Remove(list, address) == if p < |list| then list[..p] + list[p + 1..] else list
  {
    RemoveAt(list, address);
    var p := Position(list, address);
    if p < |list| {
      assert Remove(list, address) == list[..p] + list[p + 1..];
    }
  }
}
