/** How bus failures are counted, and when they stop the logger. */
module Failures {
  import opened Bytes
  import opened E2Driver
  import opened RingLog
  import opened LogModel
  import opened ExactlyOnce

  /** The states whose task step uses the bus. */
  predicate Transfers(mode: Mode) {
    mode.Init? || mode.WriteLogMsg? || mode.WriteCtrlBlock? || mode.ReadbackLog?
  }

  /** The page asked for is beyond the last, so the driver refuses. */
  predicate Refuses(s: Log) {
    (s.mode.WriteLogMsg? && s.cb.nextFree > 1023) || (s.mode.ReadbackLog? && s.cursor > 1023)
  }

  /** The failed or refused transfers since the last reset, start-up, page write or block write that was
      completed. A completed read of the dump takes none away; after six no more transfers are made. */
  ghost function Tally(s: Log, es: seq<Event>): nat
    requires WriterHasMessage(s)
    decreases |es|
  {
    if es == [] then s.failures
    else
      var n, t := Tally(s, es[..|es| - 1]), Run(s, es[..|es| - 1]);
      match es[|es| - 1]
      case PowerCut(_) => 0
      case Task(io) =>
        if n == 6 || !Transfers(t.mode) then n
        else if io.Failed? || Refuses(t) then n + 1
        else if t.mode.ReadbackLog? then n
        else 0
      case _ => n
  }

  lemma TallyStep(t: Log, e: Event)
    requires WriterHasMessage(t) && t.failures <= 6
    ensures Next(t, e).failures ==
              match e
              case PowerCut(_) => 0
              case Task(io) =>
                if t.failures == 6 || !Transfers(t.mode) then t.failures
                else if io.Failed? || Refuses(t) then t.failures + 1
                else if t.mode.ReadbackLog? then t.failures
                else 0
              case _ => t.failures
  {
    hide Recover, Payload, Advanced, WithBlock, StrLcpy;
  }

  /** Failures are counted one at a time: in every run the counter is that tally. */
  lemma {:induction false} CountsFailures(s: Log, es: seq<Event>)
    requires WriterHasMessage(s) && s.failures <= 6
    ensures Run(s, es).failures == Tally(s, es) <= 6
    decreases |es|
  {
    hide Next;
    if es != [] {
      CountsFailures(s, es[..|es| - 1]);
      TallyStep(Run(s, es[..|es| - 1]), es[|es| - 1]);
    }
  }

  /** Since the last reset six failures were on the tally at once, and a task step came after. */
  ghost predicate SixAndAStep(s: Log, es: seq<Event>)
    requires WriterHasMessage(s)
    decreases |es|
  {
    es != [] &&
    var most := es[..|es| - 1];
    match es[|es| - 1]
    case PowerCut(_) => false
    case Task(_) => SixAndAStep(s, most) || Tally(s, most) == 6
    case _ => SixAndAStep(s, most)
  }

  lemma StopsStep(t: Log, e: Event)
    requires WriterHasMessage(t) && t.failures <= 6
    ensures Next(t, e).mode.IicFail? <==> !e.PowerCut? && (t.mode.IicFail? || (e.Task? && t.failures == 6))
  {
    hide Recover, Payload, Advanced, WithBlock, StrLcpy;
  }

  /** Exactly then: in every run from power-up the logger has stopped if and only if, since the last reset,
      six failures occurred with no completed start-up, page write or block write between them, and a further
      task step followed. */
  lemma {:induction false} StopsIff(store: Store, es: seq<Event>)
    ensures Run(PowerUp(store), es).mode.IicFail? <==> SixAndAStep(PowerUp(store), es)
    decreases |es|
  {
    hide Next;
    if es != [] {
      var most := es[..|es| - 1];
      StopsIff(store, most);
      CountsFailures(PowerUp(store), most);
      StopsStep(Run(PowerUp(store), most), es[|es| - 1]);
    }
  }

  // ---------- Retries ----------

  /** A transfer that failed is tried again: nothing but the count, and what it left on the device, changes. */
  lemma FailedStep(s: Log, io: Io)
    requires WriterHasMessage(s) && s.failures <= 5 && Transfers(s.mode) && io.Failed?
    ensures var t := TaskStep(s, io);
            && t.failures == s.failures + 1
            && t == s.(failures := t.failures, store := t.store, cb := t.cb)
            && (!s.mode.Init? ==> t.cb == s.cb)
            && (s.mode.Init? ==> t.store == s.store)
  {
    hide Recover, Payload, Advanced, WithBlock;
  }

  /** A completed transfer does its work, whatever failed before it. */
  lemma DoneStep(s: Log)
    requires WriterHasMessage(s) && s.failures <= 5 && !Refuses(s)
    ensures var t := TaskStep(s, Done);
            match s.mode
            case Init => t == s.(mode := ReadyRw, cb := Recover(s.store), failures := 0)
            case WriteLogMsg =>
              && t.mode.WriteCtrlBlock? && t.failures == 0 && t.pending == s.pending[1..] && t.cb == Advanced(s.cb)
              && t.store == s.store[s.cb.nextFree := t.store[s.cb.nextFree]]
              && t.store[s.cb.nextFree][..57] == Payload(s.pending[0])
            case WriteCtrlBlock =>
              t.mode.ReadyRw? && t.failures == 0 && t.pending == s.pending && t.cb == s.cb && Decode(t.store[1023]) == s.cb
            case _ => true
  {
    hide Recover, Payload, Advanced;
    if s.mode.WriteCtrlBlock? {
      assert Encode(s.cb)[..CONTROL_SIZE] == Encode(s.cb);
      BlockRoundTrip(s.cb, s.store[LAST_PAGE]);
    }
  }

  predicate Failing(es: seq<Event>) { forall e <- es :: e.Task? && e.io.Failed? }

  lemma {:induction false} FailingRun(s: Log, es: seq<Event>)
    requires WriterHasMessage(s) && s.failures == 0 && Transfers(s.mode) && Failing(es) && |es| <= 6
    ensures var t := Run(s, es);
            && t.failures == |es|
            && t == s.(failures := t.failures, store := t.store, cb := t.cb)
            && (!s.mode.Init? ==> t.cb == s.cb)
    decreases |es|
  {
    hide TaskStep;
    if es != [] {
      FailingRun(s, es[..|es| - 1]);
      assert es[|es| - 1] in es;
      FailedStep(Run(s, es[..|es| - 1]), es[|es| - 1].io);
    }
  }

  /** Exactly then: after k failures in a row a completed transfer still takes the record from the queue onto
      its page if and only if k is at most five; after six the next task step stops the logger. */
  lemma RetryIff(s: Log, es: seq<Event>)
    requires s.mode.WriteLogMsg? && s.failures == 0 && s.pending != [] && s.cb.nextFree <= 1023
    requires Failing(es) && |es| <= 6
    ensures var t := Run(s, es + [Task(Done)]);
            && (|es| <= 5 ==> t.mode.WriteCtrlBlock? && t.failures == 0 && t.pending == s.pending[1..] && t.cb == Advanced(s.cb)
                              && t.store[s.cb.nextFree][..57] == Payload(s.pending[0]))
            && (|es| == 6 ==> t.mode.IicFail? && t.pending == s.pending && t.cb == s.cb)
  {
    hide Recover, Payload, Advanced, Run;
    FailingRun(s, es);
    assert (es + [Task(Done)])[..|es|] == es;
    RunLastEvent(s, es, Task(Done));
    if |es| <= 5 {
      DoneStep(Run(s, es));
    }
  }

  lemma RunLastEvent(s: Log, es: seq<Event>, e: Event)
    requires WriterHasMessage(s)
    ensures Run(s, es + [e]) == Next(Run(s, es), e)
  {
    assert (es + [e])[..|es|] == es;
  }
}
