/** What the message queue guarantees whatever handlers and interrupts do to it meanwhile. */
module QueueLaws {
  import opened Subscriptions
  import opened MessageQueue

  /** Everything posted is delivered, in hand, or still queued, in the order it was posted. */
  ghost predicate Conserved(s: State, inHand: seq<Message>) {
    s.posted == s.delivered + inHand + s.queue
  }

  lemma DoConserves(s: State, a: Action, inHand: seq<Message>)
    requires Conserved(s, inHand)
    ensures Conserved(Do(s, a), inHand)
  {
  }

  lemma {:induction false} DoAllConserves(s: State, actions: seq<Action>, inHand: seq<Message>)
    requires Conserved(s, inHand)
    ensures Conserved(DoAll(s, actions), inHand) && DoAll(s, actions).delivered == s.delivered
    decreases |actions|
  {
    if actions != [] {
      DoConserves(s, actions[0], inHand);
      DoAllConserves(Do(s, actions[0]), actions[1..], inHand);
    }
  }

  lemma {:induction false} PostAllConserves(s: State, ms: seq<Message>, inHand: seq<Message>)
    requires Conserved(s, inHand)
    ensures Conserved(PostAll(s, ms), inHand) && PostAll(s, ms).delivered == s.delivered
    decreases |ms|
  {
    if ms != [] {
      DoConserves(s, Action.Post(ms[0]), inHand);
      PostAllConserves(DoPost(s, ms[0]), ms[1..], inHand);
    }
  }

  /** After any number of the calls of a dispatch, with the message still in hand. */
  lemma {:induction false} CallsConserve(s: State, whos: seq<Subscriber>, m: Message, outside: Outside)
    requires Conserved(s, [m])
    ensures Conserved(CallAll(s, whos, m, outside), [m]) && CallAll(s, whos, m, outside).delivered == s.delivered
    decreases |whos|
  {
    if whos != [] {
      var called := s.(trace := s.trace + [Called(whos[0], m)], calls := s.calls + 1);
      DoAllConserves(called, outside.handlers(s.calls), [m]);
      CallsConserve(Call(s, whos[0], m, outside), whos[1..], m, outside);
    }
  }

  /** The message that a round takes from the queue, if there is one. */
  function Taken(s: State): seq<Message> { if s.queue == [] then [] else [s.queue[0]] }

  lemma RoundConserves(s: State, outside: Outside)
    requires Conserved(s, [])
    ensures Conserved(Round(s, outside), [])
    ensures Round(s, outside).delivered == s.delivered + Taken(s)
  {
    if s.queue == [] {
      PostAllConserves(s.(windows := s.windows + 1), outside.interrupts(s.windows), []);
    } else {
      var m := s.queue[0];
      var taken := s.(queue := s.queue[1..]);
      assert [m] + s.queue[1..] == s.queue;
      PostAllConserves(taken.(windows := s.windows + 1), outside.interrupts(s.windows), [m]);
      var t := Open(taken, outside);
      CallsConserve(t, Listeners(t.table, m.id), m, outside);
    }
  }

  /** Over any number of rounds, with posts arriving at any moment, nothing is lost, duplicated or
      overtaken: the deliveries are a prefix of the posts and the queue is the rest. */
  lemma {:induction false} RoundsConserve(s: State, n: nat, outside: Outside)
    requires Conserved(s, [])
    ensures Conserved(Rounds(s, n, outside), [])
    ensures s.delivered <= Rounds(s, n, outside).delivered
    decreases n
  {
    if n > 0 {
      RoundConserves(s, outside);
      RoundsConserve(Round(s, outside), n - 1, outside);
    }
  }

  // ---------- What a dispatch does ----------

  function Calls(whos: seq<Subscriber>, m: Message): seq<Effect> {
    seq(|whos|, i requires 0 <= i < |whos| => Called(whos[i], m))
  }

  function Frees(m: Message): seq<Effect> {
    if m.owner != Caller && m.context != 0 then [Freed(m.context)] else []
  }

  lemma {:induction false} ActionsAreSilent(s: State, actions: seq<Action>)
    ensures DoAll(s, actions).trace == s.trace
    decreases |actions|
  {
    if actions != [] {
      ActionsAreSilent(Do(s, actions[0]), actions[1..]);
    }
  }

  lemma {:induction false} PostsAreSilent(s: State, ms: seq<Message>)
    ensures PostAll(s, ms).trace == s.trace && PostAll(s, ms).table == s.table
    decreases |ms|
  {
    if ms != [] {
      PostsAreSilent(DoPost(s, ms[0]), ms[1..]);
    }
  }

  lemma {:induction false} CallTrace(s: State, whos: seq<Subscriber>, m: Message, outside: Outside)
    ensures CallAll(s, whos, m, outside).trace == s.trace + Calls(whos, m)
    decreases |whos|
  {
    if whos != [] {
      ActionsAreSilent(s.(trace := s.trace + [Called(whos[0], m)], calls := s.calls + 1), outside.handlers(s.calls));
      CallTrace(Call(s, whos[0], m, outside), whos[1..], m, outside);
      assert [Called(whos[0], m)] + Calls(whos[1..], m) == Calls(whos, m);
    }
  }

  /** What one round adds to the trace: the calls of those who are listed for the first message when the
      round begins, then the release of its context if the queue owns one. */
  function Story(s: State): seq<Effect> {
    if s.queue == [] then [] else Calls(Listeners(s.table, s.queue[0].id), s.queue[0]) + Frees(s.queue[0])
  }

  /** A dispatch calls exactly the subscribers listed at its start, each once, newest first, whatever
      they subscribe meanwhile; then it frees the context once if the queue owns one. */
  lemma RoundTrace(s: State, outside: Outside)
    ensures Round(s, outside).trace == s.trace + Story(s)
  {
    if s.queue == [] {
      PostsAreSilent(s.(windows := s.windows + 1), outside.interrupts(s.windows));
      assert s.trace + [] == s.trace;
    } else {
      var taken := s.(queue := s.queue[1..]);
      PostsAreSilent(taken.(windows := s.windows + 1), outside.interrupts(s.windows));
      var t := Open(taken, outside);
      CallTrace(t, Listeners(t.table, s.queue[0].id), s.queue[0], outside);
    }
  }

  function Stories(s: State, n: nat, outside: Outside): seq<Effect>
    decreases n
  {
    if n == 0 then [] else Story(s) + Stories(Round(s, outside), n - 1, outside)
  }

  function AllTaken(s: State, n: nat, outside: Outside): seq<Message>
    decreases n
  {
    if n == 0 then [] else Taken(s) + AllTaken(Round(s, outside), n - 1, outside)
  }

  /** Over any number of rounds the trace is one story per delivered message, in order: each subscriber that
      was listed when its round began is called once, newest first, and nothing else happens. */
  lemma {:induction false} RoundsTellStories(s: State, n: nat, outside: Outside)
    requires Conserved(s, [])
    ensures Rounds(s, n, outside).trace == s.trace + Stories(s, n, outside)
    ensures Rounds(s, n, outside).delivered == s.delivered + AllTaken(s, n, outside)
    decreases n
  {
    hide Round, Story, Taken, Conserved;
    if n == 0 {
      assert s.trace + [] == s.trace && s.delivered + [] == s.delivered;
    } else {
      var t := Round(s, outside);
      RoundConserves(s, outside);
      RoundTrace(s, outside);
      RoundsTellStories(t, n - 1, outside);
      assert s.trace + Story(s) + Stories(t, n - 1, outside) == s.trace + (Story(s) + Stories(t, n - 1, outside));
      assert s.delivered + Taken(s) + AllTaken(t, n - 1, outside) == s.delivered + (Taken(s) + AllTaken(t, n - 1, outside));
    }
  }

  // ---------- What joins the queue, and who joins the lists ----------

  /** The messages of valid ids among those that were posted. */
  function Offers(ms: seq<Message>): seq<Message> {
    if ms == [] then [] else (if -1 < ms[0].id < 26 then [ms[0]] else []) + Offers(ms[1..])
  }

  /** What a handler's actions post, and to what they subscribe. */
  function PostsOf(actions: seq<Action>): seq<Message> {
    if actions == [] then [] else (if actions[0].Post? then [actions[0].message] else []) + PostsOf(actions[1..])
  }

  function Subscribed(t: Table, actions: seq<Action>): Table
    decreases |actions|
  {
    if actions == [] then t
    else Subscribed(if actions[0].Subscribe? then Apply(t, Add(actions[0].id, actions[0].who)) else t, actions[1..])
  }

  lemma {:induction false} OffersConcat(a: seq<Message>, b: seq<Message>)
    ensures Offers(a + b) == Offers(a) + Offers(b)
    decreases |a|
  {
    if a == [] {
      assert a + b == b;
    } else {
      assert (a + b)[0] == a[0] && (a + b)[1..] == a[1..] + b;
      OffersConcat(a[1..], b);
    }
  }

  lemma {:induction false} InterruptsPost(s: State, ms: seq<Message>)
    ensures var t := PostAll(s, ms);
            t.posted == s.posted + Offers(ms) && t.table == s.table && t.calls == s.calls && t.windows == s.windows
    decreases |ms|
  {
    if ms != [] {
      InterruptsPost(DoPost(s, ms[0]), ms[1..]);
    }
  }

  lemma {:induction false} HandlerPosts(s: State, actions: seq<Action>)
    ensures var t := DoAll(s, actions);
            && t.posted == s.posted + Offers(PostsOf(actions))
            && t.table == Subscribed(s.table, actions)
            && t.calls == s.calls && t.windows == s.windows
    decreases |actions|
  {
    hide Apply, Do, Offers, Postable;
    if actions == [] {
      NothingPosted(s.table);
    } else {
      OneAction(s, actions[0]);
      HandlerPosts(Do(s, actions[0]), actions[1..]);
      if actions[0].Post? {
        OffersConcat([actions[0].message], PostsOf(actions[1..]));
        assert s.posted + Offers([actions[0].message]) + Offers(PostsOf(actions[1..]))
            == s.posted + (Offers([actions[0].message]) + Offers(PostsOf(actions[1..])));
      } else {
        assert PostsOf(actions) == PostsOf(actions[1..]);
      }
    }
  }

  lemma OneAction(s: State, a: Action)
    ensures var t := Do(s, a);
            && t.posted == s.posted + (if a.Post? then Offers([a.message]) else [])
            && t.table == (if a.Subscribe? then Apply(s.table, Add(a.id, a.who)) else s.table)
            && t.calls == s.calls && t.windows == s.windows
  {
    hide Apply;
  }

  /** The actions of `n` handler calls from the `c`-th on, one after the other. */
  function HandlerActions(outside: Outside, c: nat, n: nat): seq<Action>
    decreases n
  {
    if n == 0 then [] else outside.handlers(c) + HandlerActions(outside, c + 1, n - 1)
  }

  lemma {:induction false} ActionsConcat(t: Table, a: seq<Action>, b: seq<Action>)
    ensures PostsOf(a + b) == PostsOf(a) + PostsOf(b) && Subscribed(t, a + b) == Subscribed(Subscribed(t, a), b)
    decreases |a|
  {
    hide Apply;
    if a == [] {
      assert a + b == b;
    } else {
      assert (a + b)[0] == a[0] && (a + b)[1..] == a[1..] + b;
      ActionsConcat(if a[0].Subscribe? then Apply(t, Add(a[0].id, a[0].who)) else t, a[1..], b);
    }
  }

  lemma {:induction false} CallsPost(s: State, whos: seq<Subscriber>, m: Message, outside: Outside)
    ensures var t, actions := CallAll(s, whos, m, outside), HandlerActions(outside, s.calls, |whos|);
            && t.posted == s.posted + Offers(PostsOf(actions))
            && t.table == Subscribed(s.table, actions)
            && t.calls == s.calls + |whos| && t.windows == s.windows
    decreases |whos|
  {
    hide DoAll, Offers, PostsOf, Subscribed;
    if whos == [] {
      NothingPosted(s.table);
    } else {
      var u := s.(trace := s.trace + [Called(whos[0], m)], calls := s.calls + 1);
      var a, b := outside.handlers(s.calls), HandlerActions(outside, s.calls + 1, |whos| - 1);
      HandlerPosts(u, a);
      CallsPost(Call(s, whos[0], m, outside), whos[1..], m, outside);
      ActionsConcat(s.table, a, b);
      OffersConcat(PostsOf(a), PostsOf(b));
      assert s.posted + Offers(PostsOf(a)) + Offers(PostsOf(b)) == s.posted + (Offers(PostsOf(a)) + Offers(PostsOf(b)));
    }
  }

  lemma NothingPosted(t: Table)
    ensures Offers(PostsOf([])) == [] && Subscribed(t, []) == t
  {
  }

  /** The handler actions of one round: those of each subscriber listed when it begins. */
  function RoundActions(s: State, outside: Outside): seq<Action> {
    HandlerActions(outside, s.calls, if s.queue == [] then 0 else |Listeners(s.table, s.queue[0].id)|)
  }

  /** One round lets in exactly the valid posts of the interrupts of its window and then those of its handlers;
      what a handler subscribes to is on the lists from then on. */
  lemma RoundLetsIn(s: State, outside: Outside)
    ensures var t, actions := Round(s, outside), RoundActions(s, outside);
            && t.posted == s.posted + Offers(outside.interrupts(s.windows)) + Offers(PostsOf(actions))
            && t.table == Subscribed(s.table, actions)
            && t.windows == s.windows + 1
  {
    hide PostAll, CallAll, Offers, PostsOf, Subscribed, DoAll;
    var ms := outside.interrupts(s.windows);
    if s.queue == [] {
      InterruptsPost(s.(windows := s.windows + 1), ms);
      NothingPosted(s.table);
    } else {
      var taken := s.(queue := s.queue[1..]);
      InterruptsPost(taken.(windows := s.windows + 1), ms);
      CallsPost(Open(taken, outside), Listeners(s.table, s.queue[0].id), s.queue[0], outside);
    }
  }

  /** All that any number of rounds let in, in order. */
  function LetIn(s: State, n: nat, outside: Outside): seq<Message>
    decreases n
  {
    if n == 0 then []
    else Offers(outside.interrupts(s.windows)) + Offers(PostsOf(RoundActions(s, outside))) + LetIn(Round(s, outside), n - 1, outside)
  }

  /** No post is lost on the way in: over any number of rounds the accepted posts are exactly the valid ones that
      interrupts and handlers made, in the order in which they were made. */
  lemma {:induction false} RoundsLetIn(s: State, n: nat, outside: Outside)
    ensures Rounds(s, n, outside).posted == s.posted + LetIn(s, n, outside)
    ensures Rounds(s, n, outside).windows == s.windows + n
    decreases n
  {
    hide Round, Offers, PostsOf, RoundActions;
    if n > 0 {
      RoundLetsIn(s, outside);
      RoundsLetIn(Round(s, outside), n - 1, outside);
    }
  }
}
