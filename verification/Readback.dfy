/** Dumping the log to the serial port: complete and terminating, unless the next free slot is slot 0. */
module Readback {
  import opened Bytes
  import opened E2Driver
  import opened RingLog
  import opened LogModel
  import opened ExactlyOnce

  predicate NoCut(es: seq<Event>) { forall e <- es :: !e.PowerCut? }

  function Reads(es: seq<Event>): nat {
    if es == [] then 0 else Reads(es[..|es| - 1]) + if es[|es| - 1] == Task(Done) then 1 else 0
  }

  function Fails(es: seq<Event>): nat {
    if es == [] then 0
    else Fails(es[..|es| - 1]) + if es[|es| - 1].Task? && es[|es| - 1].io.Failed? then 1 else 0
  }

  /** Circular distance from the cursor to the slot where the scan stops, counting at least one. */
  function Left(cursor: nat, stop: nat): nat
    requires cursor < SLOTS && stop < SLOTS
  {
    if cursor < stop then stop - cursor else SLOTS - cursor + stop
  }

  function Wrap(slot: nat): nat
    requires slot < 2 * SLOTS
  {
    if slot < SLOTS then slot else slot - SLOTS
  }

  /** The pages of `k` slots from `from` on, wrapping at the end. */
  ghost function Span(store: Store, from: nat, k: nat): (pages: seq<Page>)
    requires from < SLOTS && k <= SLOTS
    ensures |pages| == k
  {
    seq<Page>(k, i requires 0 <= i < k => store[Wrap(from + i)])
  }

  /** The scan that began in `s` has read `k` slots and still runs in `t`. */
  ghost predicate Scanning(s: Log, t: Log, k: nat, fails: nat) {
    && s.cursor < SLOTS && 0 < s.cb.nextFree < SLOTS
    && k < Left(s.cursor, s.cb.nextFree)
    && t.mode.ReadbackLog? && t.store == s.store && t.cb == s.cb
    && t.failures == s.failures + fails
    && t.cursor == Wrap(s.cursor + k)
    && t.dumped == s.dumped + Span(s.store, s.cursor, k)
  }

  lemma SpanGrows(store: Store, from: nat, k: nat)
    requires from < SLOTS && k < SLOTS
    ensures Span(store, from, k) + [store[Wrap(from + k)]] == Span(store, from, k + 1)
  {
  }

  /** The cursor after `k` slots of a scan, and one more: it meets the end exactly when nothing is left. */
  lemma CursorMoves(cursor: u16, stop: u16, k: nat)
    requires cursor < SLOTS && 0 < stop < SLOTS && k < Left(cursor, stop)
    ensures Left(cursor, stop) <= SLOTS
    ensures var c := Wrap(cursor + k);
            && c < SLOTS && Next16(c) == c + 1
            && (c + 1 == stop <==> k + 1 == Left(cursor, stop))
            && (k + 1 < Left(cursor, stop) ==> Wrap(cursor + (k + 1)) == if c + 1 >= SLOTS then 0 else c + 1)
  {
  }

  lemma ScanRead(s: Log, t: Log, k: nat, fails: nat)
    requires Scanning(s, t, k, fails) && t.failures <= 5
    ensures var t' := TaskStep(t, Done);
            if k + 1 < Left(s.cursor, s.cb.nextFree) then Scanning(s, t', k + 1, fails)
            else t'.mode.ReadyRw? && t'.store == s.store && t'.cb == s.cb
                 && t'.dumped == s.dumped + Span(s.store, s.cursor, k + 1)
  {
    hide Span, Left, Wrap, Next16, InitStep, ReadyStep, WriteLogStep, WriteCtrlStep;
    CursorMoves(s.cursor, s.cb.nextFree, k);
    SpanGrows(s.store, s.cursor, k);
  }

  lemma ScanStep(s: Log, t: Log, k: nat, fails: nat, e: Event)
    requires Scanning(s, t, k, fails) && t.failures <= 5 && !e.PowerCut?
    ensures var t' := Next(t, e);
            if e == Task(Done) then
              if k + 1 < Left(s.cursor, s.cb.nextFree) then Scanning(s, t', k + 1, fails)
              else t'.mode.ReadyRw? && t'.store == s.store && t'.cb == s.cb
                   && t'.dumped == s.dumped + Span(s.store, s.cursor, k + 1)
            else Scanning(s, t', k, if e.Task? then fails + 1 else fails)
  {
    hide Span, Left, InitStep, ReadyStep, WriteLogStep, WriteCtrlStep, StrLcpy;
    if e == Task(Done) {
      ScanRead(s, t, k, fails);
    }
  }

  lemma {:induction false} ScanRuns(s: Log, es: seq<Event>)
    requires Scanning(s, s, 0, 0) && NoCut(es)
    requires s.failures + Fails(es) <= 5 && Reads(es) < Left(s.cursor, s.cb.nextFree)
    ensures Scanning(s, Run(s, es), Reads(es), Fails(es))
    decreases |es|
  {
    if es != [] {
      ScanRuns(s, es[..|es| - 1]);
      ScanStep(s, Run(s, es[..|es| - 1]), Reads(es[..|es| - 1]), Fails(es[..|es| - 1]), es[|es| - 1]);
    }
  }

  /** The log entry a printed page shows. */
  ghost function Entries(pages: seq<Page>): (entries: seq<seq<byte>>)
    ensures |entries| == |pages|
  {
    seq(|pages|, i requires 0 <= i < |pages| => pages[i][..MAX_LOG_MESSAGE_SIZE])
  }

  lemma SpanIsLog(store: Store, cb: ControlBlock)
    requires Sound(cb) && cb.nextFree != 0
    ensures Left(cb.oldest, cb.nextFree) < SLOTS
    ensures Entries(Span(store, cb.oldest, Left(cb.oldest, cb.nextFree))) == LogOf(store, cb)
  {
    ContentsAt(Slots(store), BlockWindow(cb));
    var n := Left(cb.oldest, cb.nextFree);
    var left, right := Entries(Span(store, cb.oldest, n)), LogOf(store, cb);
    forall i | 0 <= i < n
      ensures left[i] == right[i]
    {
      assert SlotAt(SLOTS, BlockWindow(cb), i) == Wrap(cb.oldest + i);
    }
  }

  /** A requested dump of a log whose free slot is not slot 0, with any messages arriving and any
      read failures short of the stop limit: after as many good reads as there are entries the pages
      printed are the log, each entry once, oldest first, and the logger is ready again. */
  lemma ReadbackComplete(s: Log, es: seq<Event>)
    requires s.mode.ReadyRw? && s.startReadback && !s.startDelete
    requires Sound(s.cb) && s.cb.nextFree != 0 && s.failures <= 5
    requires NoCut(es) && s.failures + Fails(es) <= 5
    requires Reads(es) + 1 == |LogOf(s.store, s.cb)|
    ensures var t := Run(TaskStep(s, Done), es + [Task(Done)]);
            && t.mode.ReadyRw? && t.cb == s.cb && t.store == s.store
            && exists pages :: t.dumped == s.dumped + pages && Entries(pages) == LogOf(s.store, s.cb)
  {
    var r := TaskStep(s, Done);
    SpanIsLog(s.store, s.cb);
    var n := Left(s.cb.oldest, s.cb.nextFree);
    assert Span(s.store, r.cursor, 0) == [];
    assert Scanning(r, r, 0, 0);
    ScanRuns(r, es);
    assert (es + [Task(Done)])[..|es|] == es;
    ScanStep(r, Run(r, es), Reads(es), Fails(es), Task(Done));
    var t := Run(r, es + [Task(Done)]);
    assert t.dumped == s.dumped + Span(s.store, s.cb.oldest, n);
  }

  // ---------- When a dump ends ----------

  /** From this cursor the scan comes to a cursor that meets `stop`. It runs over slots 0 to 1022, may begin
      on page 1023, and compares before it wraps. */
  predicate Ends(cursor: nat, stop: nat) {
    cursor <= LAST_PAGE && (1 <= stop <= LAST_PAGE || (cursor == LAST_PAGE && stop == LAST_PAGE + 1))
  }

  /** The good reads it takes. */
  function Distance(cursor: nat, stop: nat): nat
    requires Ends(cursor, stop)
  {
    if cursor < stop then stop - cursor
    else if cursor == LAST_PAGE then 1 + stop
    else LAST_PAGE - cursor + stop
  }

  /** Only the scan went on: what it leaves alone, and where it stands after `k` of its reads. */
  ghost predicate Scanned(s: Log, t: Log) {
    t == s.(mode := t.mode, cursor := t.cursor, dumped := t.dumped)
  }

  lemma EndingStep(t: Log)
    requires t.mode.ReadbackLog? && t.failures <= 5 && Ends(t.cursor, t.cb.nextFree)
    ensures var u := TaskStep(t, Done);
            && Scanned(t, u)
            && if Distance(t.cursor, t.cb.nextFree) == 1 then u.mode.ReadyRw?
               else u.mode.ReadbackLog? && Ends(u.cursor, u.cb.nextFree)
                    && Distance(u.cursor, u.cb.nextFree) == Distance(t.cursor, t.cb.nextFree) - 1
  {
    hide InitStep, ReadyStep, WriteLogStep, WriteCtrlStep;
  }

  /** With a working bus the scan then ends, whatever the block says the log is. */
  lemma {:induction false} ScanEnds(t: Log, n: nat)
    requires t.mode.ReadbackLog? && t.failures <= 5 && Ends(t.cursor, t.cb.nextFree)
    requires n == Distance(t.cursor, t.cb.nextFree)
    ensures var u := Run(t, Repeat(n));
            u.mode.ReadyRw? && Scanned(t, u)
    decreases n
  {
    hide TaskStep, Run;
    EndingStep(t);
    RunFirst(t);
    RunOnward(t, 1, n - 1);
    if n == 1 {
      NoEvents(TaskStep(t, Done));
      assert Repeat(0) == [];
    } else {
      ScanEnds(TaskStep(t, Done), n - 1);
    }
  }

  lemma RunOnward(s: Log, j: nat, k: nat)
    requires WriterHasMessage(s)
    ensures Run(s, Repeat(j + k)) == Run(Run(s, Repeat(j)), Repeat(k))
  {
    assert Repeat(j) + Repeat(k) == Repeat(j + k);
    RunAppend(s, Repeat(j), Repeat(k));
  }

  lemma RunFirst(s: Log)
    requires WriterHasMessage(s)
    ensures Run(s, Repeat(1)) == TaskStep(s, Done)
  {
    assert Repeat(1)[..0] == [];
  }

  ghost predicate Stuck(s: Log, t: Log) {
    && (t.mode.ReadbackLog? || t.mode.IicFail?)
    && !Ends(t.cursor, t.cb.nextFree) && t.cb == s.cb && t.store == s.store
  }

  lemma StuckStep(s: Log, t: Log, e: Event)
    requires Stuck(s, t) && !e.PowerCut?
    ensures Stuck(s, Next(t, e))
  {
  }

  /** Otherwise (with slot 0 as the next free one, as in an empty log or one that just wrapped, or with an
      index beyond the last page) the scan ends in no way but a bus failure or a reset. */
  lemma {:induction false} ReadbackNeverEnds(s: Log, es: seq<Event>)
    requires s.mode.ReadbackLog? && !Ends(s.cursor, s.cb.nextFree) && NoCut(es)
    ensures Stuck(s, Run(s, es))
    decreases |es|
  {
    if es != [] {
      ReadbackNeverEnds(s, es[..|es| - 1]);
      StuckStep(s, Run(s, es[..|es| - 1]), es[|es| - 1]);
    }
  }

  /** Exactly then: a dump that was started, whatever block start-up found, can come to its end if and only
      if the scan can. For a sound block that is: unless slot 0 is the next free one. */
  lemma ReadbackEndsIff(s: Log)
    requires s.mode.ReadyRw? && s.startReadback && !s.startDelete && s.failures <= 5
    ensures (exists es :: NoCut(es) && Run(TaskStep(s, Done), es).mode.ReadyRw?) <==> Ends(s.cb.oldest, s.cb.nextFree)
    ensures Sound(s.cb) ==> (Ends(s.cb.oldest, s.cb.nextFree) <==> s.cb.nextFree != 0)
  {
    var r := TaskStep(s, Done);
    if Ends(s.cb.oldest, s.cb.nextFree) {
      var n := Distance(s.cb.oldest, s.cb.nextFree);
      ScanEnds(r, n);
      assert NoCut(Repeat(n));
    } else {
      forall es | NoCut(es)
        ensures !Run(r, es).mode.ReadyRw?
      {
        ReadbackNeverEnds(r, es);
      }
    }
  }
}
