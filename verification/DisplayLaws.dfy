/** How the display starts, leaves its error screen and follows the measured speed, in milliseconds of true time. */
module DisplayLaws {
  import opened Bytes
  import opened Messages
  import opened OsTimer
  import opened Display
  import Control

  // ---------- The error screen ----------

  /** An entry was refused at time `t0`. */
  ghost predicate Refused(d: State, t0: nat) {
    d.mode.DisplayError? && d.errorTimer.tmr == t0 % 0x1_0000_0000 && d.errorTimer.time == 2000
  }

  /** A speed that is neither 0 nor from 50 to 340 is refused and changes nothing; another one is posted and
      becomes the demand on show. */
  lemma Validates(d: State, t0: nat)
    requires d.mode.ValidateInput?
    ensures var (d', posts) := TaskStep(d, t0);
            if d.input == 0 || 50 <= d.input <= 340
            then d'.mode.RefreshDisplay? && d'.demand == d.input && posts == [Note(7, Value(d.input))]
            else Refused(d', t0) && d'.demand == d.demand && posts == []
  {
  }

  /** Task steps up to 2000 ms after the refusal. */
  predicate Early(es: seq<Event>, t0: nat) {
    forall e <- es :: e.Loop? ==> t0 <= e.now <= t0 + 2000
  }

  lemma ErrorStep(d: State, t0: nat, e: Event)
    requires CursorOk(d) && Refused(d, t0) && (e.Loop? ==> t0 <= e.now < t0 + 0x1_0000_0000)
    ensures Next(d, e).1 == []
    ensures if e.Loop? && e.now > t0 + 2000 then Next(d, e).0.mode.RefreshDisplay? else Refused(Next(d, e).0, t0)
  {
    if e.Loop? {
      ModDifference(e.now, t0);
    }
  }

  lemma {:induction false} ErrorStays(d: State, t0: nat, es: seq<Event>)
    requires CursorOk(d) && Refused(d, t0) && Early(es, t0)
    ensures Refused(Run(d, es), t0) && Posts(d, es) == []
    decreases |es|
  {
    hide Refused, Next;
    if es != [] {
      assert es[|es| - 1] in es;
      ErrorStays(d, t0, es[..|es| - 1]);
      ErrorStep(Run(d, es[..|es| - 1]), t0, es[|es| - 1]);
    }
  }

  /** The error stays for 2000 ms after the refusal, whatever keys and messages arrive; the first task step
      after that refreshes the display, and the next one makes it idle. */
  lemma ErrorPasses(d: State, t0: nat, es: seq<Event>, now: nat, later: nat)
    requires CursorOk(d) && Refused(d, t0) && Early(es, t0) && t0 + 2000 < now < t0 + 0x1_0000_0000
    ensures Refused(Run(d, es), t0) && Posts(d, es) == []
    ensures Run(d, es + [Loop(now)]).mode.RefreshDisplay? && Posts(d, es + [Loop(now)]) == []
    ensures Run(d, es + [Loop(now)] + [Loop(later)]).mode.IdleDisplay?
  {
    hide Refused, Next;
    ErrorStays(d, t0, es);
    ErrorStep(Run(d, es), t0, Loop(now));
    RunOne(Run(d, es), Loop(now));
    RunConcat(d, es, [Loop(now)]);
    RunOne(Run(d, es + [Loop(now)]), Loop(later));
    RunConcat(d, es + [Loop(now)], [Loop(later)]);
    Refreshes(Run(d, es + [Loop(now)]), later);
  }

  lemma Refreshes(d: State, now: nat)
    requires CursorOk(d) && d.mode.RefreshDisplay?
    ensures Next(d, Loop(now)).0.mode.IdleDisplay?
  {
  }

  /** Messages other than keys, and no task step. */
  predicate Waiting(es: seq<Event>) { AllQuiet(es) && Loops(es) == 0 }

  /** Enter on a stack that is no valid speed: the second task step after it, at time `t0`, refuses. */
  lemma EnterRefused(d: State, stack: seq<nat>, a: seq<Event>, now: nat, b: seq<Event>, t0: nat)
    requires Shows(d, stack) && !Control.Admissible(Entered(stack)) && Waiting(a) && Waiting(b)
    ensures CursorOk(d) && Refused(Run(d, [Key(ENTER)] + (a + [Loop(now)] + b) + [Loop(t0)]), t0)
  {
    hide Posts, Run, Next, Loops, Shows, Control.Admissible, Refused, Verdict;
    ShownIsOk(d, stack);
    EnteringBegins(d, stack);
    var wait := a + [Loop(now)] + b;
    LoopsOfOne(a, now, b);
    var k := Next(d, Key(ENTER)).0;
    RunOne(d, Key(ENTER));
    EnteringRun(k, stack, wait);
    RunConcat(d, [Key(ENTER)], wait);
    RunConcat(d, [Key(ENTER)] + wait, [Loop(t0)]);
    var e := Run(d, [Key(ENTER)] + wait);
    RunOne(e, Loop(t0));
    assert Entering(e, stack, 1);
    LoopIsStep(e, t0);
    NotAdmissible(stack);
    Validates(e, t0);
  }

  lemma NotAdmissible(stack: seq<nat>)
    requires IsStack(stack) && !Control.Admissible(Entered(stack))
    ensures !(Entered(stack) == 0 || 50 <= Entered(stack) <= 340)
  {
  }

  lemma LoopIsStep(d: State, now: nat)
    requires CursorOk(d)
    ensures Next(d, Loop(now)) == TaskStep(d, now)
  {
  }

  lemma LoopsOfOne(a: seq<Event>, now: nat, b: seq<Event>)
    requires Waiting(a) && Waiting(b)
    ensures AllQuiet(a + [Loop(now)] + b) && Loops(a + [Loop(now)] + b) == 1
  {
    LoopsConcat(a, [Loop(now)]);
    LoopsConcat(a + [Loop(now)], b);
    assert [Loop(now)][..0] == [];
  }

  lemma {:induction false} LoopsConcat(a: seq<Event>, b: seq<Event>)
    ensures Loops(a + b) == Loops(a) + Loops(b)
    decreases |b|
  {
    if b == [] {
      assert a + b == a;
    } else {
      assert (a + b)[..|a + b| - 1] == a + b[..|b| - 1];
      LoopsConcat(a, b[..|b| - 1]);
    }
  }

  /** So a refused entry does not keep the next one out: once the error has passed, whatever happened
      meanwhile, a new entry posts its own verdict. */
  lemma EntryAfterRefusal(d: State, t0: nat, es: seq<Event>, now: nat, first: Stroke, strokes: seq<Stroke>, after: seq<Event>)
    requires CursorOk(d) && Refused(d, t0) && Early(es, t0) && t0 + 2000 < now < t0 + 0x1_0000_0000
    requires first.key < 10 && AllQuiet(first.rest) && 3 <= Loops(first.rest)
    requires forall s <- strokes :: Consumed(s)
    requires AllQuiet(after) && 2 <= Loops(after)
    ensures var stack := Pushes([first.key], strokes);
            var entry := [Key(first.key)] + first.rest + Events(strokes) + ([Key(ENTER)] + after);
            IsStack(stack) && Posts(d, es + [Loop(now)] + entry) == Verdict(stack)
  {
    hide Posts, Run, Next, Events, Loops, Consumed, Refused, Verdict;
    ErrorPasses(d, t0, es, now, now);
    var u := Run(d, es + [Loop(now)]);
    EntryIsTheStack(u, first, strokes, after);
    var entry := [Key(first.key)] + first.rest + Events(strokes) + ([Key(ENTER)] + after);
    RunConcat(d, es + [Loop(now)], entry);
    assert [] + Posts(u, entry) == Posts(u, entry);
  }

  // ---------- Start-up ----------

  /** A task step after the message that start-up is complete. */
  predicate Started(es: seq<Event>) {
    es != [] && (Started(es[..|es| - 1]) || (es[|es| - 1].Loop? && Completed(es[..|es| - 1])))
  }

  predicate Completed(es: seq<Event>) {
    es != [] && (Completed(es[..|es| - 1]) || (es[|es| - 1].Message? && es[|es| - 1].id == 4))
  }

  lemma StartStep(d: State, e: Event)
    requires CursorOk(d) && (e.Message? ==> e.id != MSG_ID_KEY_PRESSED)
    ensures var d' := Next(d, e).0;
            && (d'.mode.InitDisplay? <==> d.mode.InitDisplay? && !(e.Loop? && d.initComplete))
            && (d'.initComplete <==> d.initComplete || (e.Message? && e.id == 4))
  {
    hide Scan, Filled;
  }

  /** Exactly then: the display has left its start screen if and only if a task step came after the message
      that start-up is complete. It never goes back to it. */
  lemma {:induction false} StartsIff(now: nat, es: seq<Event>)
    requires forall e <- es :: e.Message? ==> e.id != MSG_ID_KEY_PRESSED
    ensures var d := Run(Initial(now), es);
            (d.mode.InitDisplay? <==> !Started(es)) && (d.initComplete <==> Completed(es))
    decreases |es|
  {
    hide Next;
    if es != [] {
      assert es[|es| - 1] in es;
      StartsIff(now, es[..|es| - 1]);
      StartStep(Run(Initial(now), es[..|es| - 1]), es[|es| - 1]);
    }
  }

  /** Two task steps after that message, with other messages at any point, the display is idle. */
  lemma StartsUp(d: State, a: seq<Event>, n1: nat, b: seq<Event>, n2: nat)
    requires d.mode.InitDisplay? && d.initComplete && Waiting(a) && Waiting(b)
    ensures Run(d, a + [Loop(n1)] + b).mode.RefreshDisplay?
    ensures Run(d, a + [Loop(n1)] + b + [Loop(n2)]).mode.IdleDisplay?
  {
    hide Run, Loops;
    WaitingKeeps(d, a);
    RunConcat(d, a, [Loop(n1)]);
    RunOne(Run(d, a), Loop(n1));
    WaitingKeeps(Run(d, a + [Loop(n1)]), b);
    RunConcat(d, a + [Loop(n1)], b);
    RunConcat(d, a + [Loop(n1)] + b, [Loop(n2)]);
    RunOne(Run(d, a + [Loop(n1)] + b), Loop(n2));
  }

  /** Messages other than keys change neither the mode nor a key that waits. */
  lemma {:induction false} WaitingKeeps(d: State, es: seq<Event>)
    requires CursorOk(d) && Waiting(es)
    ensures Run(d, es).mode == d.mode && Run(d, es).keyPressed == d.keyPressed && Run(d, es).key == d.key
    ensures d.initComplete ==> Run(d, es).initComplete
    decreases |es|
  {
    if es != [] {
      assert Quiet(es[|es| - 1]);
      WaitingKeeps(d, es[..|es| - 1]);
    }
  }

  // ---------- While idle ----------

  /** Backspace and enter open no entry; a digit does. */
  lemma IdleKeys(d: State, k: u16, now: nat)
    requires d.mode.IdleDisplay? && k <= ENTER
    ensures TaskStep(HandleStep(d, MSG_ID_KEY_PRESSED, k), now).0.mode.FirstKeyPress? <==> k < 10
  {
  }

  /** The measured speed that arrived last is adopted by the next task step of an idle display, which is idle
      again one step later. */
  lemma FollowsActual(d: State, w: u16, n1: nat, n2: nat)
    requires d.mode.IdleDisplay? && !d.keyPressed
    ensures var u := TaskStep(HandleStep(d, MSG_ID_NEW_ACTUAL_RPS, w), n1).0;
            && u.current == w == u.actual && (w != d.current <==> u.mode.NewActualRps?)
            && TaskStep(u, n2).0.mode.IdleDisplay?
  {
  }
}
