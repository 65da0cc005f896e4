/** What becomes of a device whose control block names no page to write to, and how it comes about. */
module BadBlock {
  import opened Bytes
  import opened E2Driver
  import opened RingLog
  import opened LogModel
  import opened ExactlyOnce
  import opened CrashSafety
  import Readback
  import opened Draining

  predicate NoDeletion(es: seq<Event>) { forall e <- es :: !e.DeleteLog? }

  // ---------- Dead for good ----------

  /** Nothing was ever written since power-up, and nothing can be. */
  ghost predicate Dead(store: Store, t: Log) {
    && WriterHasMessage(t) && t.store == store && !t.startDelete
    && Recover(store).nextFree > LAST_PAGE && !t.mode.WriteCtrlBlock?
    && (t.mode.ReadyRw? || t.mode.WriteLogMsg? || t.mode.ReadbackLog? ==> t.cb == Recover(store))
  }

  lemma DeadStep(store: Store, t: Log, e: Event)
    requires Dead(store, t) && !e.DeleteLog?
    ensures Dead(store, Next(t, e)) && Commit(t, e) == 0
  {
    hide BlockOn, StrLcpy;
  }

  /** Over any run without a deletion, with any number of power cuts and restarts, such a device is never
      written to: no message is logged on it any more. */
  lemma {:induction false} DeadForGood(store: Store, es: seq<Event>)
    requires Recover(store).nextFree > LAST_PAGE && NoDeletion(es)
    ensures Dead(store, Run(PowerUp(store), es)) && Commits(PowerUp(store), es) == 0
    decreases |es|
  {
    hide Dead, Next, Commit, Recover, PowerUp;
    var s := PowerUp(store);
    if es == [] {
      NothingEntered(s);
      DeadAtPowerUp(store);
    } else {
      LastEvent(s, es);
      assert es[|es| - 1] in es;
      DeadForGood(store, es[..|es| - 1]);
      DeadStep(store, Run(s, es[..|es| - 1]), es[|es| - 1]);
    }
  }

  lemma DeadAtPowerUp(store: Store)
    requires Recover(store).nextFree > LAST_PAGE
    ensures Dead(store, PowerUp(store))
  {
  }

  // ---------- Or healed by the first append ----------

  /** Start-up, one message, and four good task steps. */
  function OneMessage(say: Event): (es: seq<Event>)
    requires say.LogEvent?
    ensures NoDeletion(es)
  {
    [Task(Done), say, Task(Done), Task(Done)] + [Task(Done)]
  }

  lemma FirstAppendHeals(store: Store, say: Event)
    requires say.LogEvent? && |say.text| < MAX_LOG_MESSAGE_SIZE && say.reading.Some? && Recover(store).nextFree <= LAST_PAGE
    ensures var t := Run(PowerUp(store), OneMessage(say));
            && t.mode.ReadyRw? && t.pending == [] && t.cb == Recover(t.store) == Advanced(Recover(store)) && Sound(t.cb)
  {
    hide PowerUp, Run, TaskStep, Payload, WithBlock, BlockOn, Advanced, Sound;
    var a := [Task(Done), say, Task(Done), Task(Done)];
    AppendsFirst(store, say);
    RunSnoc(Starting, PowerUp(store), a, Task(Done));
    RecoveredHasMagic(store);
    AdvancedIsSound(Recover(store));
    var u := FirstAppend(store, say);
    assert u.mode.WriteCtrlBlock? && u.failures == 0 && u.pending == [] && u.cb == Advanced(Recover(store)) by { FirstAppendIs(store, say); }
    SaveToReady(u);
    WholeBlock(u.store, u.cb);
  }

  lemma FirstAppendIs(store: Store, say: Event)
    requires say.LogEvent? && |say.text| < MAX_LOG_MESSAGE_SIZE && say.reading.Some? && Recover(store).nextFree <= LAST_PAGE
    ensures var u := FirstAppend(store, say);
            u.mode.WriteCtrlBlock? && u.failures == 0 && u.pending == [] && u.cb == Advanced(Recover(store))
  {
    hide BlockOn, Payload, StrLcpy, Advanced;
  }

  lemma FirstAppendCommits(store: Store, say: Event)
    requires say.LogEvent? && |say.text| < MAX_LOG_MESSAGE_SIZE && say.reading.Some? && Recover(store).nextFree <= LAST_PAGE
    ensures Commits(PowerUp(store), [Task(Done), say, Task(Done), Task(Done)]) > 0
  {
    hide PowerUp, Run, Recover;
    var a := [Task(Done), say, Task(Done), Task(Done)];
    AppendsFirst(store, say);
    assert a[..3] == [Task(Done), say, Task(Done)];
    LastEvent(PowerUp(store), a);
  }

  /** Exactly then: whatever a device holds, a message can ever be logged on it without a deletion if and only
      if its block names a page to write to. Its first append then leaves a sound block, whatever it was. */
  lemma HealsIff(store: Store, say: Event)
    requires say.LogEvent? && |say.text| < MAX_LOG_MESSAGE_SIZE && say.reading.Some?
    ensures (exists es :: NoDeletion(es) && Commits(PowerUp(store), es) > 0) <==> Recover(store).nextFree <= LAST_PAGE
    ensures !Sound(Recover(store)) ==>
              ((exists es :: NoDeletion(es) && Sound(Recover(Run(PowerUp(store), es).store)))
               <==> Recover(store).nextFree <= LAST_PAGE)
  {
    hide Sound, Recover, Run, PowerUp, Commits;
    if Recover(store).nextFree <= LAST_PAGE {
      FirstAppendHeals(store, say);
      FirstAppendCommits(store, say);
      assert NoDeletion([Task(Done), say, Task(Done), Task(Done)]);
    } else {
      forall es | NoDeletion(es)
        ensures Commits(PowerUp(store), es) == 0 && Run(PowerUp(store), es).store == store
      {
        DeadForGood(store, es);
        DeadStore(store, Run(PowerUp(store), es));
      }
    }
  }

  lemma DeadStore(store: Store, t: Log)
    requires Dead(store, t)
    ensures t.store == store
  {
  }

  // ---------- How it comes about ----------

  lemma ErasedIsEmpty(store: Store)
    requires forall i :: 0 <= i < PAGE_SIZE ==> store[LAST_PAGE][i] == 255
    ensures Recover(store) == FRESH
  {
    MagicOf(store[LAST_PAGE]);
  }

  /** On an erased device, a power cut between the second and the last byte of the very first control block
      kills it: what the block's missing bytes leave of the erased ones is an index far beyond the last page,
      so that no message is ever logged on this device again, however often it is restarted. */
  lemma TornFirstBlockKills(store: Store, say: Event, torn: Page, k: nat, es: seq<Event>)
    requires forall i :: 0 <= i < PAGE_SIZE ==> store[LAST_PAGE][i] == 255
    requires say.LogEvent? && |say.text| < MAX_LOG_MESSAGE_SIZE && say.reading.Some?
    requires 2 <= k < CONTROL_SIZE && NoDeletion(es)
    ensures var t := Run(PowerUp(store), [Task(Done), say, Task(Done), Task(Done)] + [PowerCut(Failed(torn, k, FRESH))]);
            && t == PowerUp(t.store) && Recover(t.store).nextFree >= 0xFF00
            && Run(t, es).store == t.store && Commits(t, es) == 0
  {
    hide Run, Recover, Sound, Torn;
    var a, cut := [Task(Done), say, Task(Done), Task(Done)], PowerCut(Failed(torn, k, FRESH));
    ErasedIsEmpty(store);
    AppendsFirst(store, say);
    RunSnoc(Starting, PowerUp(store), a, cut);
    CutFirstBlock(store, say, torn, k);
    var t := Next(FirstAppend(store, say), cut);
    DeadForGood(t.store, es);
    DeadStore(t.store, Run(t, es));
  }

  lemma CutFirstBlock(store: Store, say: Event, torn: Page, k: nat)
    requires forall i :: 0 <= i < PAGE_SIZE ==> store[LAST_PAGE][i] == 255
    requires say.LogEvent? && |say.text| < MAX_LOG_MESSAGE_SIZE && say.reading.Some? && Recover(store) == FRESH
    requires 2 <= k < CONTROL_SIZE
    ensures var t := Next(FirstAppend(store, say), PowerCut(Failed(torn, k, FRESH)));
            t == PowerUp(t.store) && Recover(t.store).nextFree >= 0xFF00
  {
    hide Torn, BlockOn, StrLcpy, Payload, Sound, Advanced;
    AdvancedIsSound(FRESH);
    var u := FirstAppend(store, say);
    assert u.store[LAST_PAGE] == store[LAST_PAGE] && u.cb == Advanced(FRESH);
    TornFirstBlock(store[LAST_PAGE], u.cb, k);
  }

  /** There a logger that got ready, with a message queued, a good bus and no request, never empties its
      queue; and a dump that is asked for never ends. */
  lemma DeadLogger(store: Store, say: Event, k: nat)
    requires say.LogEvent? && |say.text| < MAX_LOG_MESSAGE_SIZE && say.reading.Some? && Recover(store).nextFree >= 0xFF00
    ensures var s := Run(PowerUp(store), [Task(Done)] + [say]);
            && s.mode.ReadyRw? && s.failures == 0 && !s.startDelete && !s.startReadback && s.cb.nextFree != 0
            && s.pending != [] && Run(s, Repeat(k)).pending != []
            && !Readback.Ends(s.cb.oldest, s.cb.nextFree)
  {
    hide StrLcpy, Recover;
    var s := PowerUp(store);
    NoEvents(s);
    RunSnoc(Starting, s, [], Task(Done));
    RunSnoc(Starting, s, [Task(Done)], say);
    assert [] + [Task(Done)] == [Task(Done)];
    hide Run;
    BlockedForGood(Run(s, [Task(Done)] + [say]), Repeat(k));
  }
}
