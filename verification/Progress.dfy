/** With a working bus and neither request outstanding, every queued record is committed after a bounded number
    of the logger's own task steps, whatever messages arrive in between. */
module Progress {
  import opened Bytes
  import opened E2Driver
  import opened RingLog
  import opened LogModel
  import opened ExactlyOnce

  /** Starting or working, with a sound block and no request for a deletion or a dump. */
  ghost predicate Alive(s: Log) {
    && WriterHasMessage(s) && s.failures <= 5 && !s.startDelete && !s.startReadback
    && (s.mode.Init? || s.mode.ReadyRw? || s.mode.WriteLogMsg? || s.mode.WriteCtrlBlock?)
    && (if s.mode.Init? then Sound(Recover(s.store)) else Sound(s.cb))
  }

  /** Task steps until `n` more records are committed. */
  function StepsTo(mode: Mode, n: nat): nat {
    if n == 0 then 0
    else if mode.WriteLogMsg? then 3 * n - 2
    else if mode.ReadyRw? then 3 * n - 1
    else 3 * n
  }

  /** Good task steps and messages to be logged. */
  predicate Working(es: seq<Event>) { forall e <- es :: e == Task(Done) || e.LogEvent? }

  function Tasks(es: seq<Event>): nat {
    if es == [] then 0 else Tasks(es[..|es| - 1]) + if es[|es| - 1].Task? then 1 else 0
  }

  lemma AliveStep(t: Log, e: Event, n: nat)
    requires Alive(t) && n <= |t.pending| && (e == Task(Done) || e.LogEvent?)
    ensures var u, c := Next(t, e), Commit(t, e);
            && Alive(u)
            && (n == 0 || c <= n) && (n > 0 ==> n - c <= |u.pending|)
            && (n > 0 ==> StepsTo(u.mode, n - c) + (if e.Task? then 1 else 0) == StepsTo(t.mode, n))
  {
    hide Sound, Recover, Payload, Advanced, WithBlock, StrLcpy;
    if e.Task? && t.mode.WriteLogMsg? {
      FreeIsSlot(t.cb);
      AdvancedIsSound(t.cb);
    }
  }

  /** Alive all the time; and either `n` records were committed, or each task step brought that one closer. */
  ghost predicate Approaches(s: Log, n: nat, t: Log, tasks: nat, commits: nat) {
    && Alive(t)
    && (commits >= n || (n - commits <= |t.pending| && tasks + StepsTo(t.mode, n - commits) == StepsTo(s.mode, n)))
  }

  lemma ApproachesStep(s: Log, n: nat, t: Log, tasks: nat, commits: nat, e: Event)
    requires Approaches(s, n, t, tasks, commits) && (e == Task(Done) || e.LogEvent?)
    ensures Approaches(s, n, Next(t, e), tasks + (if e.Task? then 1 else 0), commits + Commit(t, e))
  {
    hide Alive, Next, Commit;
    AliveWrites(t);
    AliveStep(t, e, if commits >= n then 0 else n - commits);
  }

  lemma AliveWrites(t: Log)
    requires Alive(t)
    ensures WriterHasMessage(t)
  {
  }

  lemma {:induction false} RunApproaches(s: Log, n: nat, es: seq<Event>)
    requires Alive(s) && n <= |s.pending| && Working(es)
    ensures WriterHasMessage(s)
    ensures Approaches(s, n, Run(s, es), Tasks(es), Commits(s, es))
    decreases |es|
  {
    hide Alive, Next, Commit, Approaches;
    AliveWrites(s);
    if es == [] {
      ApproachesAtStart(s, n);
      NothingEntered(s);
    } else {
      LastEvent(s, es);
      assert es[|es| - 1] in es;
      RunApproaches(s, n, es[..|es| - 1]);
      ApproachesStep(s, n, Run(s, es[..|es| - 1]), Tasks(es[..|es| - 1]), Commits(s, es[..|es| - 1]), es[|es| - 1]);
    }
  }

  lemma ApproachesAtStart(s: Log, n: nat)
    requires Alive(s) && n <= |s.pending|
    ensures Approaches(s, n, s, 0, 0)
  {
  }

  /** All `n` records that were queued at the start are committed after 3n task steps, at most. */
  lemma CommitsInTime(s: Log, n: nat, es: seq<Event>)
    requires Alive(s) && n <= |s.pending| && Working(es) && 3 * n <= Tasks(es)
    ensures WriterHasMessage(s) && Commits(s, es) >= n && Alive(Run(s, es))
  {
    RunApproaches(s, n, es);
  }

  lemma {:induction false} CommitsConcat(s: Log, a: seq<Event>, b: seq<Event>)
    requires WriterHasMessage(s)
    ensures Commits(s, a + b) == Commits(s, a) + Commits(Run(s, a), b)
    decreases |b|
  {
    hide Commit, Next;
    if b == [] {
      assert a + b == a;
    } else {
      var most := b[..|b| - 1];
      assert (a + b)[..|a + b| - 1] == a + most;
      CommitsConcat(s, a, most);
      RunAppend(s, a, most);
    }
  }
}
