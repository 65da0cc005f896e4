/** The two results about the log in one: which of the accepted messages a restart finds. */
module Restart {
  import opened Bytes
  import opened E2Driver
  import opened RingLog
  import opened LogModel
  import opened ExactlyOnce
  import opened CrashSafety

  /** How many of `c` committed records the device holds as a whole: all, except the one whose update of
      the control block has not been completed. */
  ghost function Kept(q: Phase, c: nat): nat {
    if q.Updating? && c > 0 then c - 1 else c
  }

  /** The newest part of the device's first log followed by the first `c` of the records. */
  ghost function LogAfter(store: Store, all: seq<Record>, c: nat): seq<seq<byte>>
    requires Usable(store) && c <= |all|
  {
    Newest(Durable(store) + Payloads(all[..c]), CAPACITY)
  }

  /** The books balance, and what was last saved as a whole is the log of the kept records. */
  ghost predicate SavedFrom(store: Store, t: Log, q: Phase, all: seq<Record>, c: nat)
    requires Usable(store)
  {
    && Inv(t, q) && c <= |all| && (q.Updating? ==> c > 0)
    && (if q.Starting? then NotStarted(store, t, all, c)
        else Balanced(Durable(store), Recover(store).entries, t, all, c))
    && ViewOf(t, q).durable == LogAfter(store, all, Kept(q, c))
  }

  lemma LiveIsBalanced(store: Store, t: Log, q: Phase, all: seq<Record>, c: nat)
    requires Usable(store) && Inv(t, q) && !q.Starting?
    requires Balanced(Durable(store), Recover(store).entries, t, all, c)
    ensures ViewOf(t, q).live == LogAfter(store, all, c)
  {
    hide LogOf, Sound, BlockOn;
  }

  lemma AtPowerUp(store: Store)
    requires Usable(store)
    ensures SavedFrom(store, PowerUp(store), Starting, PowerUp(store).pending, 0)
  {
    hide LogOf, Sound, BlockOn;
    PowerUpIsSafe(store);
    NothingYet(store, []);
  }

  lemma NothingYet(store: Store, all: seq<Record>)
    requires Usable(store)
    ensures LogAfter(store, all, 0) == Durable(store)
  {
    IndicesMeetIffEmpty(store, Recover(store));
    assert Durable(store) + Payloads(all[..0]) == Durable(store);
  }

  lemma AcceptedLater(store: Store, all: seq<Record>, added: seq<Record>, c: nat)
    requires Usable(store) && c <= |all|
    ensures LogAfter(store, all + added, c) == LogAfter(store, all, c)
  {
    assert (all + added)[..c] == all[..c];
  }

  /** A commit begins an update of the control block, and nothing is committed inside one. */
  lemma CommitBegins(t: Log, q: Phase, e: Event)
    requires Inv(t, q) && !t.startDelete && !e.PowerCut? && !e.DeleteLog?
    ensures Track(q, t, e).Updating? ==> if q.Updating? then Commit(t, e) == 0 else Commit(t, e) == 1
    ensures q.Starting? ==> !Track(q, t, e).Updating? && Commit(t, e) == 0
    ensures Track(q, t, e).Starting? ==> q.Starting?
  {
    hide LogOf, Sound, BlockOn, Torn;
  }

  /** A step of the start-up phase. */
  lemma StartingStep(store: Store, t: Log, all: seq<Record>, e: Event)
    requires Usable(store) && SavedFrom(store, t, Starting, all, 0) && !e.PowerCut? && !e.DeleteLog?
    ensures SavedFrom(store, Next(t, e), Track(Starting, t, e), all + TakenIn(t, e), Commit(t, e))
  {
    var u, q := Next(t, e), Track(Starting, t, e);
    CommitBegins(t, Starting, e);
    StepSafe(t, Starting, e);
    StartUp(store, t, all, e);
    NothingYet(store, all + TakenIn(t, e));
    StartingEnds(store, t, all, e);
    if !q.Starting? {
      Agree(u, q);
      LiveIsBalanced(store, u, q, all + TakenIn(t, e), 0);
    }
  }

  lemma StartingEnds(store: Store, t: Log, all: seq<Record>, e: Event)
    requires Usable(store) && NotStarted(store, t, all, 0) && Inv(t, Starting) && !e.PowerCut? && !e.DeleteLog?
    ensures var u, q := Next(t, e), Track(Starting, t, e);
            && (q.Starting? ==> NotStarted(store, u, all + TakenIn(t, e), 0))
            && (!q.Starting? ==> u.mode.ReadyRw?)
  {
    hide LogOf, Sound, BlockOn;
    assert TakenIn(t, e) == [] ==> all + TakenIn(t, e) == all;
  }

  lemma BalancedMeans(store: Store, t: Log, all: seq<Record>, c: nat)
    requires Usable(store) && Balanced(Durable(store), Recover(store).entries, t, all, c)
    ensures !t.startDelete && c <= |all|
  {
  }

  /** Inside an update the durable log stays, and the update accounts for the one committed record more. */
  lemma DurableInUpdate(store: Store, t: Log, q: Phase, all: seq<Record>, c: nat, e: Event)
    requires Usable(store) && Inv(t, q) && !q.Starting? && !t.startDelete && !e.PowerCut? && !e.DeleteLog?
    requires c <= |all| && (q.Updating? ==> c > 0) && ViewOf(t, q).durable == LogAfter(store, all, Kept(q, c))
    requires Track(q, t, e).Updating?
    ensures var c' := c + Commit(t, e);
            && 0 < c' && Kept(Track(q, t, e), c') == Kept(q, c)
            && Inv(Next(t, e), Track(q, t, e))
            && ViewOf(Next(t, e), Track(q, t, e)).durable == LogAfter(store, all + TakenIn(t, e), Kept(q, c))
  {
    hide LogOf, Sound, BlockOn, Inv, ViewOf, Next, Track, TakenIn, Commit, LogAfter;
    CommitBegins(t, q, e);
    DurableStays(t, q, e);
    AcceptedLater(store, all, TakenIn(t, e), Kept(q, c));
  }

  lemma LaterStep(store: Store, t: Log, q: Phase, all: seq<Record>, c: nat, e: Event)
    requires Usable(store) && SavedFrom(store, t, q, all, c) && !q.Starting? && !e.PowerCut? && !e.DeleteLog?
    ensures SavedFrom(store, Next(t, e), Track(q, t, e), all + TakenIn(t, e), c + Commit(t, e))
  {
    hide LogOf, Sound, Recover, Next, Track, TakenIn, Commit, LogAfter, Inv, ViewOf, Balanced, NotStarted, Kept, WriterHasMessage;
    InvWrites(t, q);
    var u, r, all', c' := Next(t, e), Track(q, t, e), all + TakenIn(t, e), c + Commit(t, e);
    BalancedMeans(store, t, all, c);
    InvStays(t, q, e);
    Extend(Durable(store), Recover(store).entries, t, all, c, e);
    BalancedMeans(store, u, all', c');
    CommitBegins(t, q, e);
    if r.Updating? {
      DurableInUpdate(store, t, q, all, c, e);
    } else {
      Agree(u, r);
      LiveIsBalanced(store, u, r, all', c');
      KeepsAll(r, c');
    }
  }

  lemma KeepsAll(q: Phase, c: nat)
    requires !q.Updating?
    ensures Kept(q, c) == c
  {
  }

  lemma InvStays(t: Log, q: Phase, e: Event)
    requires Inv(t, q) && !e.PowerCut?
    ensures Inv(Next(t, e), Track(q, t, e))
  {
    hide Inv, ViewOf, SpecStep, Next, Track;
    StepSafe(t, q, e);
  }

  lemma DurableStays(t: Log, q: Phase, e: Event)
    requires Inv(t, q) && !e.PowerCut? && Track(q, t, e).Updating?
    ensures Inv(Next(t, e), Track(q, t, e)) && ViewOf(Next(t, e), Track(q, t, e)).durable == ViewOf(t, q).durable
  {
    hide LogOf, Sound, BlockOn, Torn;
    if e.Task? {
      TaskSafe(t, q, e.io);
    } else {
      MessageSafe(t, q, e);
    }
  }

  lemma {:induction false} RunSaves(store: Store, es: seq<Event>)
    requires Usable(store) && Undisturbed(es)
    ensures var s := PowerUp(store);
            SavedFrom(store, Run(s, es), PhaseAfter(Starting, s, es), Entered(s, es), Commits(s, es))
    decreases |es|
  {
    hide SavedFrom, PowerUp, Usable, Next, Track, TakenIn, Commit, Run, PhaseAfter, Entered, Commits, Undisturbed, Inv;
    var s := PowerUp(store);
    if es == [] {
      AtPowerUp(store);
      NothingEntered(s);
      NoPhase(Starting, s);
    } else {
      var most, e := es[..|es| - 1], es[|es| - 1];
      LastEvent(s, es);
      UndisturbedLast(es);
      LastPhase(Starting, s, es);
      RunSaves(store, most);
      OneStep(store, Run(s, most), PhaseAfter(Starting, s, most), Entered(s, most), Commits(s, most), e);
    }
  }

  lemma OneStep(store: Store, t: Log, q: Phase, all: seq<Record>, c: nat, e: Event)
    requires Usable(store) && SavedFrom(store, t, q, all, c) && !e.PowerCut? && !e.DeleteLog?
    ensures SavedFrom(store, Next(t, e), Track(q, t, e), all + TakenIn(t, e), c + Commit(t, e))
  {
    if q.Starting? {
      StartingStep(store, t, all, e);
    } else {
      LaterStep(store, t, q, all, c, e);
    }
  }

  /** From power-up on any usable device, over any run without deletion, with any bus failures and any
      number of failed start-ups: cutting the power now, if the tear this leaves is clean, and starting
      again finds the newest part of the device's first log followed by the committed records, in order;
      of these only the last may be missing, and only while its update of the control block is not done. */
  lemma RestartFindsCommitted(store: Store, es: seq<Event>)
    requires Usable(store) && Undisturbed(es)
    requires CleanNow(Run(PowerUp(store), es), PhaseAfter(Starting, PowerUp(store), es))
    ensures var s := PowerUp(store);
            var t, q, all, c := Run(s, es), PhaseAfter(Starting, s, es), Entered(s, es), Commits(s, es);
            && Inv(Restarted(t), Steady) && Restarted(t).mode.ReadyRw? && Usable(t.store) && c <= |all|
            && Live(Restarted(t), Steady) in {LogAfter(store, all, c), LogAfter(store, all, Kept(q, c))}
            && (q.Updating? ==> c > 0)
  {
    hide LogOf, Sound, BlockOn, Torn, CleanTear, LogAfter, Run, PhaseAfter, Balanced, NotStarted;
    var s := PowerUp(store);
    RunSaves(store, es);
    var t, q := Run(s, es), PhaseAfter(Starting, s, es);
    FromHere(t, q);
    if q.Updating? {
      LiveIsBalanced(store, t, q, Entered(s, es), Commits(s, es));
    }
  }

  // ---------- Any number of boots ----------

  /** The records of one boot that its power cut leaves on the device: the committed ones, without the last
      if start-up finds the block of before. */
  ghost function Survivors(store: Store, es: seq<Event>): seq<Record>
    requires Usable(store) && Undisturbed(es)
    ensures Survivors(store, es) <= Entered(PowerUp(store), es)
    ensures var s := PowerUp(store);
            |Survivors(store, es)| in {Commits(s, es), Kept(PhaseAfter(Starting, s, es), Commits(s, es))}
  {
    var s := PowerUp(store);
    var t, q, all, c := Run(s, es), PhaseAfter(Starting, s, es), Entered(s, es), Commits(s, es);
    CommitsEntered(store, es);
    all[..if q.Updating? && BlockWindow(Recover(t.store)) != BlockWindow(t.cb) then Kept(q, c) else c]
  }

  lemma CommitsEntered(store: Store, es: seq<Event>)
    requires Usable(store) && Undisturbed(es)
    ensures Commits(PowerUp(store), es) <= |Entered(PowerUp(store), es)|
  {
    hide Balanced, NotStarted, ViewOf, Inv;
    RunSaves(store, es);
  }

  /** One boot that ends in a clean power cut adds its survivors to the device's log. */
  lemma BootAdds(store: Store, es: seq<Event>)
    requires Usable(store) && Undisturbed(es)
    requires CleanNow(Run(PowerUp(store), es), PhaseAfter(Starting, PowerUp(store), es))
    ensures var t := Run(PowerUp(store), es);
            Usable(t.store) && Durable(t.store) == Newest(Durable(store) + Payloads(Survivors(store, es)), CAPACITY)
  {
    hide LogOf, Sound, BlockOn, Torn, CleanTear, CleanNow, Run, PhaseAfter, Balanced, NotStarted, Entered, Commits, BlockWindow, Newest, Payloads;
    var s := PowerUp(store);
    var t, q := Run(s, es), PhaseAfter(Starting, s, es);
    RunSaves(store, es);
    RestartFinds(t, q);
    if q.Updating? {
      LiveIsBalanced(store, t, q, Entered(s, es), Commits(s, es));
    }
  }

  /** The device after a number of boots, each from power-up through a run to a power cut. */
  ghost function Device(store: Store, boots: seq<seq<Event>>): Store
    decreases |boots|
  {
    if boots == [] then store
    else Run(PowerUp(Device(store, boots[..|boots| - 1])), boots[|boots| - 1]).store
  }

  /** No boot has a deletion, and each ends with a clean tear. */
  ghost predicate CleanBoots(store: Store, boots: seq<seq<Event>>)
    decreases |boots|
  {
    boots == [] ||
    (var s, es := PowerUp(Device(store, boots[..|boots| - 1])), boots[|boots| - 1];
     CleanBoots(store, boots[..|boots| - 1]) && Undisturbed(es) && CleanNow(Run(s, es), PhaseAfter(Starting, s, es)))
  }

  /** The survivors of all boots, in order. */
  ghost function AllSurvivors(store: Store, boots: seq<seq<Event>>): (rs: seq<Record>)
    requires Usable(store) && CleanBoots(store, boots)
    decreases |boots|
  {
    if boots == [] then []
    else
      var most := boots[..|boots| - 1];
      BootsAreUsable(store, most);
      AllSurvivors(store, most) + Survivors(Device(store, most), boots[|boots| - 1])
  }

  lemma {:induction false} BootsAreUsable(store: Store, boots: seq<seq<Event>>)
    requires Usable(store) && CleanBoots(store, boots)
    ensures Usable(Device(store, boots))
    decreases |boots|
  {
    hide Usable, CleanNow, Run, PhaseAfter, Undisturbed, PowerUp, Survivors;
    if boots != [] {
      BootsAreUsable(store, boots[..|boots| - 1]);
      BootAdds(Device(store, boots[..|boots| - 1]), boots[|boots| - 1]);
    }
  }

  lemma Joined(log: seq<seq<byte>>, a: seq<Record>, b: seq<Record>)
    ensures Newest(Newest(log + Payloads(a), CAPACITY) + Payloads(b), CAPACITY) == Newest(log + Payloads(a + b), CAPACITY)
  {
    PayloadsConcat(a, b);
    NewestAgain(log + Payloads(a), Payloads(b), CAPACITY);
    assert log + Payloads(a) + Payloads(b) == log + (Payloads(a) + Payloads(b));
  }

  /** Over any number of boots, each ended by a power cut with a clean tear, the device holds the newest part
      of its first log followed by the survivors of every boot, in order: of each boot the committed records,
      at most the last one missing. */
  lemma {:induction false} BootsAdd(store: Store, boots: seq<seq<Event>>)
    requires Usable(store) && CleanBoots(store, boots)
    ensures Usable(Device(store, boots))
    ensures Durable(Device(store, boots)) == Newest(Durable(store) + Payloads(AllSurvivors(store, boots)), CAPACITY)
    decreases |boots|
  {
    hide Sound, Recover, CleanNow, Run, PhaseAfter, Undisturbed, PowerUp, Survivors, LogOf, Newest, Payloads, Durable;
    BootsAreUsable(store, boots);
    if boots == [] {
      NoBoot(store);
    } else {
      var most := boots[..|boots| - 1];
      BootsAdd(store, most);
      BootAdds(Device(store, most), boots[|boots| - 1]);
      Joined(Durable(store), AllSurvivors(store, most), Survivors(Device(store, most), boots[|boots| - 1]));
    }
  }

  lemma NoBoot(store: Store)
    requires Usable(store)
    ensures Durable(store) == Newest(Durable(store) + Payloads([]), CAPACITY)
  {
    var none: seq<Record> := [];
    NothingYet(store, none);
    assert none[..0] == none;
  }
}
