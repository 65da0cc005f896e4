/** Every accepted message reaches the log exactly once and in order, through any number of
    failed transfers; and what a deletion request does to that promise. */
module ExactlyOnce {
  import opened Bytes
  import opened E2Driver
  import opened RingLog
  import opened LogModel

  /** Start-up is over and the RAM block is a sound window. */
  ghost predicate Started(s: Log) {
    && WriterHasMessage(s)
    && !s.mode.Init?
    && Sound(s.cb)
  }

  /** The log as the RAM block shows it. */
  ghost function RamLog(s: Log): seq<seq<byte>>
    requires Started(s)
  {
    LogOf(s.store, s.cb)
  }

  /** No reset and no deletion request. */
  predicate Undisturbed(es: seq<Event>) {
    forall e <- es :: !e.PowerCut? && !e.DeleteLog?
  }

  lemma UndisturbedLast(es: seq<Event>)
    requires Undisturbed(es) && es != []
    ensures Undisturbed(es[..|es| - 1]) && !es[|es| - 1].PowerCut? && !es[|es| - 1].DeleteLog?
  {
  }

  /** The record a single event puts into the queue, if any. */
  ghost function TakenIn(s: Log, e: Event): seq<Record> {
    if e.LogEvent? && Accepts(s, e.text, e.reading)
    then [Record(e.reading.value, StrLcpy(e.junk, e.text))]
    else []
  }

  /** 1 when the event is a task step whose page write succeeded. */
  ghost function Commit(s: Log, e: Event): nat {
    if e.Task? && e.io.Done? && s.mode.WriteLogMsg? && s.failures <= 5 && s.cb.nextFree <= LAST_PAGE then 1 else 0
  }

  /** The records queued at the start, then those accepted during the run, in order. */
  ghost function Entered(s: Log, es: seq<Event>): seq<Record>
    requires WriterHasMessage(s)
    decreases |es|
  {
    if es == [] then s.pending
    else Entered(s, es[..|es| - 1]) + TakenIn(Run(s, es[..|es| - 1]), es[|es| - 1])
  }

  ghost function Commits(s: Log, es: seq<Event>): nat
    requires WriterHasMessage(s)
    decreases |es|
  {
    if es == [] then 0
    else Commits(s, es[..|es| - 1]) + Commit(Run(s, es[..|es| - 1]), es[|es| - 1])
  }

  lemma NothingEntered(s: Log)
    requires WriterHasMessage(s)
    ensures Run(s, []) == s && Entered(s, []) == s.pending && Commits(s, []) == 0
  {
  }

  /** The last event of a run. */
  lemma LastEvent(s: Log, es: seq<Event>)
    requires WriterHasMessage(s) && es != []
    ensures var most, e := es[..|es| - 1], es[|es| - 1];
            && Run(s, es) == Next(Run(s, most), e)
            && Entered(s, es) == Entered(s, most) + TakenIn(Run(s, most), e)
            && Commits(s, es) == Commits(s, most) + Commit(Run(s, most), e)
  {
  }

  /** The entry count after `c` more entries: it stops at the number of slots. */
  function Counted(entries: nat, c: nat): nat {
    if entries + c <= LAST_PAGE || c == 0 then entries + c
    else if entries <= LAST_PAGE then LAST_PAGE
    else entries
  }

  /** One event: the committed record leaves the head of the queue and joins the end of the log,
      the accepted one joins the end of the queue. */
  lemma Step(s: Log, e: Event)
    requires Started(s) && !s.startDelete && !e.PowerCut? && !e.DeleteLog?
    ensures var s' := Next(s, e);
            && Started(s') && !s'.startDelete
            && Commit(s, e) <= |s.pending|
            && s'.pending == s.pending[Commit(s, e)..] + TakenIn(s, e)
            && RamLog(s') == Newest(RamLog(s) + Payloads(s.pending[..Commit(s, e)]), CAPACITY)
            && s'.cb.entries == Counted(s.cb.entries, Commit(s, e))
  {
    if Commit(s, e) == 1 {
      AdvancedIsAdvance(s.cb);
      SlotWriteAppends(s.store, s.cb, s.pending[0]);
      assert Payloads(s.pending[..1]) == [Payload(s.pending[0])];
    } else {
      ContentsAt(Slots(s.store), BlockWindow(s.cb));
      assert Payloads(s.pending[..0]) == [];
      assert RamLog(s) + [] == RamLog(s);
      Quiet(s, e);
    }
  }

  /** Without a completed page write the RAM log stays what it is. */
  lemma Quiet(s: Log, e: Event)
    requires Started(s) && !s.startDelete && !e.PowerCut? && !e.DeleteLog? && Commit(s, e) == 0
    ensures Next(s, e).cb == s.cb && LogOf(Next(s, e).store, s.cb) == LogOf(s.store, s.cb)
  {
    if e.Task? && s.failures <= 5 {
      if s.mode.WriteLogMsg? {
        TornSlotIsOutside(s.store, s.cb, e.io.torn);
      } else if s.mode.WriteCtrlBlock? {
        BlockOutsideSlots(s.store, s.cb, if e.io.Done? then CONTROL_SIZE else e.io.landed);
      }
    }
  }

  lemma PayloadsConcat(a: seq<Record>, b: seq<Record>)
    ensures Payloads(a + b) == Payloads(a) + Payloads(b)
  {
  }

  /** Gluing one step to a run, on plain sequences. */
  lemma Glue(all: seq<Record>, c: nat, added: seq<Record>, d: nat)
    requires c <= |all| && d <= |all[c..]|
    ensures (all + added)[c + d..] == all[c..][d..] + added
    ensures (all + added)[..c + d] == all[..c] + all[c..][..d]
  {
  }

  /** Of `all` records, the first `c` were appended to `log`, which had `entries` entries on its
      count, and show in the log of `t`; the others are queued in `t`. */
  ghost predicate Balanced(log: seq<seq<byte>>, entries: nat, t: Log, all: seq<Record>, c: nat) {
    && Started(t) && !t.startDelete
    && c <= |all|
    && t.pending == all[c..]
    && RamLog(t) == Newest(log + Payloads(all[..c]), CAPACITY)
    && t.cb.entries == Counted(entries, c)
  }

  lemma NewestExtends(log: seq<seq<byte>>, all: seq<Record>, c: nat, added: seq<Record>, d: nat)
    requires c <= |all| && d <= |all[c..]|
    ensures Newest(Newest(log + Payloads(all[..c]), CAPACITY) + Payloads(all[c..][..d]), CAPACITY)
         == Newest(log + Payloads((all + added)[..c + d]), CAPACITY)
  {
    Glue(all, c, added, d);
    PayloadsConcat(all[..c], all[c..][..d]);
    NewestAgain(log + Payloads(all[..c]), Payloads(all[c..][..d]), CAPACITY);
    assert log + Payloads(all[..c]) + Payloads(all[c..][..d]) == log + (Payloads(all[..c]) + Payloads(all[c..][..d]));
  }

  lemma Extend(log: seq<seq<byte>>, entries: nat, t: Log, all: seq<Record>, c: nat, e: Event)
    requires Balanced(log, entries, t, all, c) && !e.PowerCut? && !e.DeleteLog?
    ensures Balanced(log, entries, Next(t, e), all + TakenIn(t, e), c + Commit(t, e))
  {
    hide TakenIn, Commit, Next, Payloads, Newest, Sound, LogOf;
    Step(t, e);
    Glue(all, c, TakenIn(t, e), Commit(t, e));
    NewestExtends(log, all, c, TakenIn(t, e), Commit(t, e));
  }

  lemma BalancedAtStart(s: Log)
    requires Started(s) && !s.startDelete
    ensures Balanced(RamLog(s), s.cb.entries, s, s.pending, 0)
  {
    ContentsAt(Slots(s.store), BlockWindow(s.cb));
    assert RamLog(s) + Payloads(s.pending[..0]) == RamLog(s);
  }

  /** Exactly once, in order: over any run without reset or deletion, the records queued at the
      start followed by those accepted during the run are, in that order, exactly those committed
      followed by those still queued; and the log is the newest part of the old log followed by
      the committed records. */
  lemma {:induction false} ExactlyOnceInOrder(s: Log, es: seq<Event>)
    requires Started(s) && !s.startDelete && Undisturbed(es)
    ensures Balanced(RamLog(s), s.cb.entries, Run(s, es), Entered(s, es), Commits(s, es))
    decreases |es|
  {
    hide Balanced, TakenIn, Commit, Next, Run, Entered, Commits, Sound, RamLog, Undisturbed;
    if es == [] {
      BalancedAtStart(s);
      NothingEntered(s);
    } else {
      var most := es[..|es| - 1];
      LastEvent(s, es);
      UndisturbedLast(es);
      ExactlyOnceInOrder(s, most);
      Extend(RamLog(s), s.cb.entries, Run(s, most), Entered(s, most), Commits(s, most), es[|es| - 1]);
    }
  }

  // ---------- From power-up ----------

  /** A device that may be powered up: never written by the logger, or holding a sound block. */
  ghost predicate Usable(store: Store) {
    Sound(Recover(store))
  }

  /** Start-up has not succeeded: everything is queued and the device is untouched. */
  ghost predicate NotStarted(store: Store, t: Log, all: seq<Record>, c: nat) {
    && (t.mode.Init? || t.mode.IicFail?)
    && t.store == store && !t.startDelete && t.pending == all && c == 0
  }

  ghost predicate BalancedFrom(store: Store, t: Log, all: seq<Record>, c: nat)
    requires Usable(store)
  {
    NotStarted(store, t, all, c) || Balanced(Durable(store), Recover(store).entries, t, all, c)
  }

  lemma StartUp(store: Store, t: Log, all: seq<Record>, e: Event)
    requires Usable(store) && NotStarted(store, t, all, 0) && !e.PowerCut? && !e.DeleteLog?
    ensures BalancedFrom(store, Next(t, e), all + TakenIn(t, e), 0) && Commit(t, e) == 0
  {
    assert TakenIn(t, e) == [] ==> all + TakenIn(t, e) == all;
    if e.Task? && e.io.Done? && t.mode.Init? && t.failures <= 5 {
      BalancedAtStart(Next(t, e));
    }
  }

  lemma FromStep(store: Store, t: Log, all: seq<Record>, c: nat, e: Event)
    requires Usable(store) && BalancedFrom(store, t, all, c) && WriterHasMessage(t)
    requires !e.PowerCut? && !e.DeleteLog?
    ensures BalancedFrom(store, Next(t, e), all + TakenIn(t, e), c + Commit(t, e))
  {
    hide Balanced, TakenIn, Commit, Next;
    if NotStarted(store, t, all, c) {
      StartUp(store, t, all, e);
    } else {
      Extend(Durable(store), Recover(store).entries, t, all, c, e);
    }
  }

  lemma NotStartedYet(store: Store)
    requires Usable(store)
    ensures BalancedFrom(store, PowerUp(store), PowerUp(store).pending, 0)
  {
  }

  /** The same from power-up, whatever log the device holds and however often start-up fails. */
  lemma {:induction false} ExactlyOnceFromPowerUp(store: Store, es: seq<Event>)
    requires Usable(store) && Undisturbed(es)
    ensures var s := PowerUp(store);
            BalancedFrom(store, Run(s, es), Entered(s, es), Commits(s, es))
    decreases |es|
  {
    hide BalancedFrom, PowerUp, TakenIn, Commit, Usable, Next, Run, Entered, Commits, Undisturbed;
    var s := PowerUp(store);
    if es == [] {
      NothingEntered(s);
      NotStartedYet(store);
    } else {
      var most, e := es[..|es| - 1], es[|es| - 1];
      LastEvent(s, es);
      UndisturbedLast(es);
      ExactlyOnceFromPowerUp(store, most);
      FromStep(store, Run(s, most), Entered(s, most), Commits(s, most), e);
    }
  }

  // ---------- Task steps with a working bus ----------

  function Repeat(k: nat): (es: seq<Event>)
    ensures |es| == k && Undisturbed(es)
  {
    seq(k, _ => Task(Done))
  }

  lemma {:induction false} RunAppend(s: Log, a: seq<Event>, b: seq<Event>)
    requires WriterHasMessage(s)
    ensures Run(s, a + b) == Run(Run(s, a), b)
    decreases |b|
  {
    if b == [] {
      assert a + b == a;
    } else {
      assert (a + b)[..|a + b| - 1] == a + b[..|b| - 1];
      RunAppend(s, a, b[..|b| - 1]);
    }
  }

  // ---------- Fail-stop ----------

  /** At most six failures in a row are counted; the sixth turns the next task step into a stop. */
  lemma {:induction false} FailureBound(s: Log, es: seq<Event>)
    requires WriterHasMessage(s) && s.failures <= 6 && |s.pending| <= MAX_MESSAGE_QUEUE_SIZE
    ensures Run(s, es).failures <= 6 && |Run(s, es).pending| <= MAX_MESSAGE_QUEUE_SIZE
    ensures forall io :: Run(s, es).failures > 5 ==> TaskStep(Run(s, es), io).mode.IicFail?
    decreases |es|
  {
    if es != [] {
      FailureBound(s, es[..|es| - 1]);
    }
  }

  ghost predicate StoppedFrom(s: Log, t: Log) {
    && t.mode.IicFail? && t.store == s.store && t.cb == s.cb && t.dumped == s.dumped
    && |t.pending| <= MAX_MESSAGE_QUEUE_SIZE && s.pending <= t.pending
  }

  lemma StopStep(s: Log, t: Log, e: Event)
    requires StoppedFrom(s, t) && !e.PowerCut?
    ensures StoppedFrom(s, Next(t, e))
  {
  }

  /** Once stopped, nothing but a reset moves the logger: the device, the RAM block and the printed
      pages stay, and the queue stays bounded. */
  lemma {:induction false} StopIsFinal(s: Log, es: seq<Event>)
    requires s.mode.IicFail? && |s.pending| <= MAX_MESSAGE_QUEUE_SIZE
    requires forall e <- es :: !e.PowerCut?
    ensures StoppedFrom(s, Run(s, es))
    decreases |es|
  {
    if es != [] {
      StopIsFinal(s, es[..|es| - 1]);
      StopStep(s, Run(s, es[..|es| - 1]), es[|es| - 1]);
    }
  }
}
