/** When a working logger empties its queue, and what keeps it from doing so. */
module Draining {
  import opened Bytes
  import opened E2Driver
  import opened RingLog
  import opened LogModel
  import opened ExactlyOnce
  import opened Readback

  /** Ready, with a working bus and nothing else asked for. */
  ghost predicate Idle(s: Log) {
    Started(s) && s.mode.ReadyRw? && s.failures <= 5 && !s.startDelete && !s.startReadback
  }

  ghost function ThreeGood(s: Log): (t: Log)
    requires WriterHasMessage(s)
    ensures WriterHasMessage(t)
  {
    TaskStep(TaskStep(TaskStep(s, Done), Done), Done)
  }

  /** Ready to write, with a working bus and neither request outstanding. Its block may name any slots. */
  ghost predicate Writes(s: Log) {
    s.mode.ReadyRw? && s.failures <= 5 && !s.startDelete && !s.startReadback && s.cb.nextFree <= LAST_PAGE
  }

  lemma IdleWrites(s: Log)
    requires Idle(s)
    ensures Writes(s)
  {
  }

  lemma ReadyToWrite(s: Log)
    requires Writes(s) && s.pending != []
    ensures TaskStep(s, Done) == s.(mode := WriteLogMsg)
  {
  }

  lemma SaveToReady(s: Log)
    requires s.mode.WriteCtrlBlock? && s.failures <= 5
    ensures TaskStep(s, Done) == s.(failures := 0, store := WithBlock(s.store, s.cb, CONTROL_SIZE), mode := ReadyRw)
  {
  }

  /** Three good task steps take the head of the queue into the log and onto the device, and leave a sound
      window whatever it was before. */
  lemma ThreeSteps(s: Log)
    requires Writes(s) && s.pending != []
    ensures var t := ThreeGood(s);
            && Idle(t)
            && t.pending == s.pending[1..]
            && (s.cb.magic == CONTROL_BLOCK_MAGIC ==> Recover(t.store) == t.cb)
  {
    hide TaskStep, Advanced, Sound, Payload, WithBlock, Recover;
    ReadyToWrite(s);
    WrittenState(s.(mode := WriteLogMsg));
    var u := TaskStep(s.(mode := WriteLogMsg), Done);
    SaveToReady(u);
    AdvancedIsSound(s.cb);
    if s.cb.magic == CONTROL_BLOCK_MAGIC {
      WholeBlock(u.store, u.cb);
    }
  }

  lemma RunThree(s: Log, k: nat)
    requires WriterHasMessage(s) && 3 <= k
    ensures Run(s, Repeat(k)) == Run(ThreeGood(s), Repeat(k - 3))
  {
    assert Repeat(3)[..2] == Repeat(2) && Repeat(2)[..1] == Repeat(1) && Repeat(1)[..0] == [];
    assert Run(s, Repeat(1)) == TaskStep(s, Done);
    assert Run(s, Repeat(2)) == TaskStep(TaskStep(s, Done), Done);
    assert Run(s, Repeat(3)) == ThreeGood(s);
    assert Repeat(3) + Repeat(k - 3) == Repeat(k);
    RunAppend(s, Repeat(3), Repeat(k - 3));
  }

  lemma {:induction false} QueueEmpties(s: Log, n: nat)
    requires Idle(s) && n == |s.pending|
    ensures Idle(Run(s, Repeat(3 * n))) && Run(s, Repeat(3 * n)).pending == []
    decreases n
  {
    hide Idle, ThreeGood, Writes;
    if n > 0 {
      IdleWrites(s);
      ThreeSteps(s);
      QueueEmpties(ThreeGood(s), n - 1);
      RunThree(s, 3 * n);
    }
  }

  /** With a working bus and neither request outstanding, three task steps per queued message
      empty the queue into the log. */
  lemma Drains(s: Log)
    requires Idle(s)
    ensures var t := Run(s, Repeat(3 * |s.pending|));
            && Idle(t) && t.pending == []
            && RamLog(t) == Newest(RamLog(s) + Payloads(s.pending), CAPACITY)
  {
    var k := 3 * |s.pending|;
    QueueEmpties(s, |s.pending|);
    ExactlyOnceInOrder(s, Repeat(k));
    NothingAccepted(s, k);
    assert s.pending[..|s.pending|] == s.pending;
  }

  lemma {:induction false} NothingAccepted(s: Log, k: nat)
    requires WriterHasMessage(s)
    ensures Entered(s, Repeat(k)) == s.pending
    decreases k
  {
    if k > 0 {
      assert Repeat(k)[..k - 1] == Repeat(k - 1);
      NothingAccepted(s, k - 1);
    }
  }

  /** Whatever its block, a logger that may write empties its queue. */
  lemma WritingEmpties(s: Log)
    requires Writes(s) && s.pending != []
    ensures Run(s, Repeat(3 * |s.pending|)).pending == []
  {
    hide Idle, ThreeGood, Writes, Run;
    ThreeSteps(s);
    QueueEmpties(ThreeGood(s), |s.pending| - 1);
    RunThree(s, 3 * |s.pending|);
  }

  // ---------- What blocks the queue ----------

  /** A deletion or an endless dump was asked for, the block names no page to write to, or the logger has
      stopped. A page write under way is still completed, so a deletion request does not block it yet. */
  ghost predicate Blocked(s: Log) {
    match s.mode
    case Init => s.startDelete
    case ReadyRw => s.startDelete || s.cb.nextFree > LAST_PAGE || (s.startReadback && !Ends(s.cb.oldest, s.cb.nextFree))
    case WriteLogMsg => s.cb.nextFree > LAST_PAGE && s.pending != []
    case WriteCtrlBlock => s.startDelete || s.cb.nextFree > LAST_PAGE
    case ReadbackLog => s.startDelete || s.cb.nextFree > LAST_PAGE || !Ends(s.cursor, s.cb.nextFree)
    case IicFail => true
  }

  lemma BlockedStep(s: Log, e: Event)
    requires Blocked(s) && !e.PowerCut?
    ensures var t := Next(s, e);
            && Blocked(t) && s.pending <= t.pending && Slots(t.store) == Slots(s.store) && Commit(s, e) == 0
            && (s.startDelete ==> t.startDelete)
  {
    hide Slots, Sound, StrLcpy, Recover, Payload, Advanced;
    if e.Task? && s.mode.WriteCtrlBlock? && s.failures <= 5 {
      BlockOutsideSlots(s.store, s.cb, if e.io.Done? then CONTROL_SIZE else e.io.landed);
    }
  }

  /** From then on, until a reset, the queue only grows to its limit and no page is ever written. */
  lemma {:induction false} BlockedForGood(s: Log, es: seq<Event>)
    requires Blocked(s) && NoCut(es)
    ensures WriterHasMessage(s)
    ensures var t := Run(s, es);
            && Blocked(t) && s.pending <= t.pending && Slots(t.store) == Slots(s.store) && Commits(s, es) == 0
            && (s.startDelete ==> t.startDelete)
    decreases |es|
  {
    hide Next, Slots, Commit;
    if es != [] {
      BlockedForGood(s, es[..|es| - 1]);
      BlockedStep(Run(s, es[..|es| - 1]), es[|es| - 1]);
    }
  }

  /** After a deletion request: blocked, or still in the page write that was under way. */
  ghost predicate Deleting(s: Log, t: Log, commits: nat) {
    && t.startDelete && WriterHasMessage(t)
    && (if t.mode.WriteLogMsg? && t.cb.nextFree <= LAST_PAGE
        then s.mode.WriteLogMsg? && s.cb.nextFree <= LAST_PAGE && commits == 0
        else Blocked(t) && commits <= 1 && (commits == 1 ==> s.mode.WriteLogMsg? && s.cb.nextFree <= LAST_PAGE))
  }

  lemma DeletingStep(s: Log, t: Log, commits: nat, e: Event)
    requires Deleting(s, t, commits) && !e.PowerCut?
    ensures Deleting(s, Next(t, e), commits + Commit(t, e))
  {
    hide Slots, Sound, StrLcpy, Recover, Payload, Advanced;
  }

  /** A deletion request, whenever it arrives, is never taken back: until a reset at most one more page is
      written, the one whose write was under way. */
  lemma {:induction false} DeletionSticks(s: Log, es: seq<Event>)
    requires s.startDelete && WriterHasMessage(s) && NoCut(es)
    ensures Deleting(s, Run(s, es), Commits(s, es))
    decreases |es|
  {
    hide Next, Commit;
    if es != [] {
      DeletionSticks(s, es[..|es| - 1]);
      DeletingStep(s, Run(s, es[..|es| - 1]), Commits(s, es[..|es| - 1]), es[|es| - 1]);
    }
  }

  /** A deletion is carried out: whatever the block was, and whatever else was asked for, two good task steps
      after the request the device and the RAM block hold an empty log, at once and after a restart. */
  lemma DeletionClears(s: Log)
    requires s.mode.ReadyRw? && s.failures <= 5 && s.startDelete
    ensures var t := Run(s, Repeat(2));
            && t.mode.ReadyRw? && t.pending == s.pending && Slots(t.store) == Slots(s.store)
            && t.cb == Recover(t.store) == ControlBlock(0xAAAA, 0, 0, 0)
            && RamLog(t) == Durable(t.store) == []
  {
    hide Slots, Recover, WithBlock;
    var u := s.(cb := FRESH, mode := WriteCtrlBlock);
    assert Repeat(2)[..1] == Repeat(1) && Repeat(1)[..0] == [];
    assert Run(s, Repeat(1)) == TaskStep(s, Done) == u;
    assert Run(s, Repeat(2)) == TaskStep(u, Done);
    SaveToReady(u);
    WholeBlock(u.store, FRESH);
    BlockOutsideSlots(u.store, FRESH, CONTROL_SIZE);
  }

  /** Exactly then: a ready logger with a working bus, whatever block start-up found, empties its queue unless
      a deletion was asked for, the block names no page to write to, or a dump was asked for that never ends. */
  lemma DrainsIff(s: Log)
    requires s.mode.ReadyRw? && s.failures <= 5 && s.pending != []
    ensures (exists k :: Run(s, Repeat(k)).pending == [])
            <==> !s.startDelete && s.cb.nextFree <= LAST_PAGE
                 && (s.startReadback ==> s.cb.nextFree != 0 && s.cb.oldest <= LAST_PAGE)
  {
    hide Run, TaskStep, Slots;
    if s.startDelete || s.cb.nextFree > LAST_PAGE || (s.startReadback && (s.cb.nextFree == 0 || s.cb.oldest > LAST_PAGE)) {
      assert Blocked(s);
      forall k: nat
        ensures Run(s, Repeat(k)).pending != []
      {
        BlockedForGood(s, Repeat(k));
      }
    } else if s.startReadback {
      var n := DumpEnds(s);
      var t := Run(s, Repeat(n));
      WritingEmpties(t);
      RunOnward(s, n, 3 * |t.pending|);
    } else {
      WritingEmpties(s);
    }
  }

  /** A dump that ends leaves everything but its cursor as it was. */
  lemma DumpEnds(s: Log) returns (n: nat)
    requires s.mode.ReadyRw? && s.failures <= 5 && s.startReadback && !s.startDelete
    requires 1 <= s.cb.nextFree <= LAST_PAGE && s.cb.oldest <= LAST_PAGE
    ensures var t := Run(s, Repeat(n)); Writes(t) && t.pending == s.pending
  {
    hide Run;
    var r, k := TaskStep(s, Done), Distance(s.cb.oldest, s.cb.nextFree);
    ScanEnds(r, k);
    RunFirst(s);
    RunOnward(s, 1, k);
    n := 1 + k;
  }

  /** How the last case comes about: on a device without a log, start-up, one message, and a request for
      a dump. No message is ever logged again before a reset. */
  lemma DumpOfEmptyLogBlocks(store: Store, text: seq<byte>, date: Date, junk: MessageBuffer, es: seq<Event>)
    requires Decode(store[LAST_PAGE]).magic != CONTROL_BLOCK_MAGIC
    requires |text| < MAX_LOG_MESSAGE_SIZE && NoCut(es)
    ensures var s := Run(PowerUp(store), [Task(Done), LogEvent(text, Some(date), junk), DumpLog]);
            && Started(s) && s.mode.ReadyRw? && s.failures <= 5 && !s.startDelete
            && s.pending != [] && s.pending <= Run(s, es).pending && Commits(s, es) == 0
  {
    var say := LogEvent(text, Some(date), junk);
    var s := PowerUp(store);
    assert [Task(Done), say, DumpLog][..2] == [Task(Done), say] && [Task(Done), say][..1] == [Task(Done)] && [Task(Done)][..0] == [];
    assert Run(s, [Task(Done)]) == TaskStep(s, Done);
    assert Run(s, [Task(Done), say]) == Next(TaskStep(s, Done), say);
    BlockedForGood(Run(s, [Task(Done), say, DumpLog]), es);
  }
}
