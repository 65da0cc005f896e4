/** What a power cut can cost: the logger against a specification that only knows a live log,
    a durable log and a queue of pending records. */
module CrashSafety {
  import opened Bytes
  import opened E2Driver
  import opened RingLog
  import opened LogModel

  // ---------- Torn control blocks ----------

  /** The window that start-up finds after the first `k` bytes of `update` replaced those of `prior`. */
  function TornWindow(prior: ControlBlock, update: ControlBlock, k: nat): Window
    requires k <= CONTROL_SIZE
  {
    BlockWindow(Decode(Overwrite(Encode(prior), Encode(update)[..k])))
  }

  /** When an interrupted update of a control block still leaves one of the two logs: nothing
      or only the entry count arrived, or the rest of the index words agree byte for byte. */
  predicate CleanCut(prior: ControlBlock, update: ControlBlock, k: nat) {
    || k <= 4
    || (k == 5 && (Low(update.oldest) == Low(prior.oldest)
                   || (High(update.oldest) == High(prior.oldest) && update.nextFree == prior.nextFree)))
    || (k == 6 && (update.oldest == prior.oldest || update.nextFree == prior.nextFree))
    || (k == 7 && (High(update.nextFree) == High(prior.nextFree)
                   || (update.oldest == prior.oldest && Low(update.nextFree) == Low(prior.nextFree))))
    || 8 <= k
  }

  lemma WordsAgree(a: u16, b: u16)
    ensures Word(Low(a), High(a)) == a
    ensures Word(Low(a), High(b)) == a <==> High(a) == High(b)
    ensures Word(Low(a), High(b)) == b <==> Low(a) == Low(b)
  {
  }

  /** Exactly then: an update cut short after `k` bytes recovers the old or the new window
      if and only if the cut is clean. */
  lemma TornBlock(prior: ControlBlock, update: ControlBlock, k: nat)
    requires k <= CONTROL_SIZE
    ensures TornWindow(prior, update, k) in {BlockWindow(prior), BlockWindow(update)} <==> CleanCut(prior, update, k)
  {
    WordsAgree(update.oldest, prior.oldest);
    WordsAgree(prior.oldest, update.oldest);
    WordsAgree(update.nextFree, prior.nextFree);
    WordsAgree(prior.nextFree, update.nextFree);
    var bytes := Overwrite(Encode(prior), Encode(update)[..k]);
    assert forall i :: 0 <= i < 8 ==> bytes[i] == if i < k then Encode(update)[i] else Encode(prior)[i];
  }

  /** For an append the rule is short: only a cut inside the two index words can hurt, and only
      when the oldest entry is being dropped or the free slot moves to another 256-slot block. */
  lemma TornAppend(cb: ControlBlock, k: nat)
    requires Sound(cb) && k <= CONTROL_SIZE
    ensures CleanCut(cb, Advanced(cb), k) <==>
              match k
              case 5 => Advanced(cb).oldest == cb.oldest
              case 6 => Advanced(cb).oldest == cb.oldest
              case 7 => High(Advanced(cb).nextFree) == High(cb.nextFree)
              case _ => true
  {
    AdvancedIsAdvance(cb);
  }

  /** The tears that a restart survives. On a page with the magic word: the clean cuts. On a page
      without it: those that leave it without, those whose index words read as the empty log, and
      those that miss nothing but bytes that were right already. */
  ghost predicate CleanTear(page: Page, cb: ControlBlock, landed: nat) {
    var k := if landed < CONTROL_SIZE then landed else CONTROL_SIZE;
    if Decode(page).magic == CONTROL_BLOCK_MAGIC then CleanCut(Decode(page), cb, k)
    else
      || k == 0
      || (k == 1 && page[1] != High(CONTROL_BLOCK_MAGIC))
      || (&& (if k <= 4 then page[4] else Low(cb.oldest)) == 0
          && (if k <= 5 then page[5] else High(cb.oldest)) == 0
          && (if k <= 6 then page[6] else Low(cb.nextFree)) == 0
          && (if k <= 7 then page[7] else High(cb.nextFree)) == 0)
      || (&& (k <= 4 ==> page[4] == Low(cb.oldest))
          && (k <= 5 ==> page[5] == High(cb.oldest))
          && (k <= 6 ==> page[6] == Low(cb.nextFree))
          && (k <= 7 ==> page[7] == High(cb.nextFree)))
  }

  lemma WordsEqual(a: byte, b: byte, w: u16)
    ensures Word(a, b) == w <==> a == Low(w) && b == High(w)
  {
  }

  /** A window is told by the last four bytes of the block. */
  lemma IndexBytes(bytes: seq<byte>, cb: ControlBlock)
    requires CONTROL_SIZE <= |bytes|
    ensures BlockWindow(Decode(bytes)) == BlockWindow(cb)
            <==> bytes[4] == Low(cb.oldest) && bytes[5] == High(cb.oldest)
                 && bytes[6] == Low(cb.nextFree) && bytes[7] == High(cb.nextFree)
  {
    WordsEqual(bytes[4], bytes[5], cb.oldest);
    WordsEqual(bytes[6], bytes[7], cb.nextFree);
  }

  lemma EncodeDecode(page: Page)
    ensures Encode(Decode(page)) == page[..CONTROL_SIZE]
  {
    SplitWord(page[0], page[1]);
    SplitWord(page[2], page[3]);
    SplitWord(page[4], page[5]);
    SplitWord(page[6], page[7]);
  }

  lemma TornWithMagic(page: Page, cb: ControlBlock, landed: nat)
    requires cb.magic == CONTROL_BLOCK_MAGIC && Decode(page).magic == CONTROL_BLOCK_MAGIC
    ensures BlockWindow(BlockOn(Torn(page, cb, landed))) in {BlockWindow(BlockOn(page)), BlockWindow(cb)}
            <==> CleanTear(page, cb, landed)
  {
    var k := if landed < CONTROL_SIZE then landed else CONTROL_SIZE;
    var torn, prior := Torn(page, cb, landed), Decode(page);
    var bytes := Overwrite(Encode(prior), Encode(cb)[..k]);
    EncodeDecode(page);
    assert forall i :: 0 <= i < CONTROL_SIZE ==> torn[i] == bytes[i];
    assert bytes[0] == Low(CONTROL_BLOCK_MAGIC) && bytes[1] == High(CONTROL_BLOCK_MAGIC);
    JoinWord(CONTROL_BLOCK_MAGIC);
    assert Decode(torn) == Decode(bytes);
    TornBlock(prior, cb, k);
  }

  lemma TornBytes(page: Page, cb: ControlBlock, landed: nat)
    ensures var torn := Torn(page, cb, landed);
            && torn[0] == (if landed <= 0 then page[0] else Low(cb.magic))
            && torn[1] == (if landed <= 1 then page[1] else High(cb.magic))
            && torn[4] == (if landed <= 4 then page[4] else Low(cb.oldest))
            && torn[5] == (if landed <= 5 then page[5] else High(cb.oldest))
            && torn[6] == (if landed <= 6 then page[6] else Low(cb.nextFree))
            && torn[7] == (if landed <= 7 then page[7] else High(cb.nextFree))
  {
    var k := if landed < CONTROL_SIZE then landed else CONTROL_SIZE;
    assert forall i :: 0 <= i < CONTROL_SIZE ==> Torn(page, cb, landed)[i] == if i < k then Encode(cb)[i] else page[i];
  }

  lemma MagicOf(bytes: seq<byte>)
    requires CONTROL_SIZE <= |bytes|
    ensures Decode(bytes).magic == CONTROL_BLOCK_MAGIC
            <==> bytes[0] == Low(CONTROL_BLOCK_MAGIC) && bytes[1] == High(CONTROL_BLOCK_MAGIC)
  {
    WordsEqual(bytes[0], bytes[1], CONTROL_BLOCK_MAGIC);
  }

  lemma TornWithoutMagic(page: Page, cb: ControlBlock, landed: nat)
    requires cb.magic == CONTROL_BLOCK_MAGIC && Decode(page).magic != CONTROL_BLOCK_MAGIC
    ensures BlockWindow(BlockOn(Torn(page, cb, landed))) in {BlockWindow(BlockOn(page)), BlockWindow(cb)}
            <==> CleanTear(page, cb, landed)
  {
    var torn := Torn(page, cb, landed);
    assert BlockOn(page) == FRESH;
    if landed == 0 || (landed == 1 && page[1] != High(CONTROL_BLOCK_MAGIC)) {
      NoMagicYet(page, cb, landed);
    } else {
      MagicArrived(page, cb, landed);
      TornIndex(page, cb, landed);
    }
  }

  lemma NoMagicYet(page: Page, cb: ControlBlock, landed: nat)
    requires cb.magic == CONTROL_BLOCK_MAGIC && Decode(page).magic != CONTROL_BLOCK_MAGIC
    requires landed == 0 || (landed == 1 && page[1] != High(CONTROL_BLOCK_MAGIC))
    ensures BlockOn(Torn(page, cb, landed)) == FRESH
  {
    TornBytes(page, cb, landed);
    MagicOf(Torn(page, cb, landed));
    MagicOf(page);
  }

  lemma MagicArrived(page: Page, cb: ControlBlock, landed: nat)
    requires cb.magic == CONTROL_BLOCK_MAGIC && 1 <= landed
    requires landed == 1 ==> page[1] == High(CONTROL_BLOCK_MAGIC)
    ensures BlockOn(Torn(page, cb, landed)) == Decode(Torn(page, cb, landed))
  {
    TornBytes(page, cb, landed);
    MagicOf(Torn(page, cb, landed));
  }

  lemma TornIndex(page: Page, cb: ControlBlock, landed: nat)
    requires Decode(page).magic != CONTROL_BLOCK_MAGIC && 1 <= landed
    requires landed == 1 ==> page[1] == High(CONTROL_BLOCK_MAGIC)
    ensures var w := BlockWindow(Decode(Torn(page, cb, landed)));
            w == BlockWindow(FRESH) || w == BlockWindow(cb) <==> CleanTear(page, cb, landed)
  {
    TornBytes(page, cb, landed);
    IndexBytes(Torn(page, cb, landed), FRESH);
    IndexBytes(Torn(page, cb, landed), cb);
    assert Low(0) == High(0) == 0;
    hide Decode, Encode, Word, Low, High, Torn, BlockWindow, CleanCut;
  }

  /** Exactly then, whatever the page held: start-up finds the window there was before or the new
      one if and only if the tear is clean. */
  lemma TearOutcome(page: Page, cb: ControlBlock, landed: nat)
    requires cb.magic == CONTROL_BLOCK_MAGIC
    ensures BlockWindow(BlockOn(Torn(page, cb, landed))) in {BlockWindow(BlockOn(page)), BlockWindow(cb)}
            <==> CleanTear(page, cb, landed)
  {
    if Decode(page).magic == CONTROL_BLOCK_MAGIC {
      TornWithMagic(page, cb, landed);
    } else {
      TornWithoutMagic(page, cb, landed);
    }
  }

  /** On an erased device the very first block has no predecessor to fall back to: cut anywhere
      after its magic word but before its end, it leaves indices that name no slot. */
  lemma TornFirstBlock(page: Page, cb: ControlBlock, k: nat)
    requires (forall i :: 0 <= i < PAGE_SIZE ==> page[i] == 255)
    requires cb.magic == CONTROL_BLOCK_MAGIC && Sound(cb)
    ensures Sound(BlockOn(Torn(page, cb, k))) <==> CleanTear(page, cb, k)
    ensures CleanTear(page, cb, k) <==> k <= 1 || CONTROL_SIZE <= k
    ensures 2 <= k < CONTROL_SIZE ==> BlockOn(Torn(page, cb, k)).nextFree >= 0xFF00
  {
    SoundIsLow(cb);
    if 2 <= k < CONTROL_SIZE {
      var torn := Torn(page, cb, k);
      assert torn[7] == 255 && torn[0] == Encode(cb)[0] && torn[1] == Encode(cb)[1];
      JoinWord(CONTROL_BLOCK_MAGIC);
      SoundIsLow(BlockOn(torn));
    } else {
      SoundByWindow(page, cb, k);
    }
  }

  lemma SoundIsLow(cb: ControlBlock)
    ensures Sound(cb) ==> High(cb.nextFree) < 4
  {
  }

  lemma SoundByWindow(page: Page, cb: ControlBlock, k: nat)
    requires cb.magic == CONTROL_BLOCK_MAGIC && CleanTear(page, cb, k)
    requires Sound(cb) && Sound(BlockOn(page))
    ensures Sound(BlockOn(Torn(page, cb, k)))
  {
    TearOutcome(page, cb, k);
  }

  /** A second attempt at the same block only adds to the first. */
  lemma TornTwice(page: Page, cb: ControlBlock, a: nat, b: nat)
    ensures Torn(Torn(page, cb, a), cb, b) == Torn(page, cb, Max(a, b))
  {
    var x, y := Torn(Torn(page, cb, a), cb, b), Torn(page, cb, Max(a, b));
    assert forall i :: 0 <= i < PAGE_SIZE ==> x[i] == y[i];
  }

  lemma TornNothing(page: Page, cb: ControlBlock)
    ensures Torn(page, cb, 0) == page
  {
  }

  function Max(a: nat, b: nat): nat { if a < b then b else a }

  // ---------- Where a run stands with its control block ----------

  /** What the state alone does not tell: whether start-up has succeeded since the last reset, and, inside
      an update of the control block, what the device held when it began and how much of the new block the
      best of the failed attempts has landed. */
  datatype Phase = Starting | Steady | Updating(prior: Page, landed: nat)

  ghost function Track(p: Phase, s: Log, e: Event): Phase
    requires WriterHasMessage(s)
  {
    match e
    case PowerCut(_) => Starting
    case Task(io) => TrackTask(p, s, io)
    case _ => p
  }

  ghost function TrackTask(p: Phase, s: Log, io: Io): Phase
    requires WriterHasMessage(s)
  {
    if s.failures > 5 || s.mode.IicFail? then p
    else
      match TaskStep(s, io).mode
      case Init => Starting
      case WriteCtrlBlock =>
        if s.mode.WriteCtrlBlock? && p.Updating? && io.Failed? then p.(landed := Max(p.landed, io.landed))
        else Updating(s.store[LAST_PAGE], 0)
      case _ => Steady
  }

  ghost function PhaseAfter(p: Phase, s: Log, es: seq<Event>): Phase
    requires WriterHasMessage(s)
    decreases |es|
  {
    if es == [] then p
    else Track(PhaseAfter(p, s, es[..|es| - 1]), Run(s, es[..|es| - 1]), es[|es| - 1])
  }

  lemma LastPhase(p: Phase, s: Log, es: seq<Event>)
    requires WriterHasMessage(s) && es != []
    ensures PhaseAfter(p, s, es) == Track(PhaseAfter(p, s, es[..|es| - 1]), Run(s, es[..|es| - 1]), es[|es| - 1])
  {
  }

  lemma NoPhase(p: Phase, s: Log)
    requires WriterHasMessage(s)
    ensures PhaseAfter(p, s, []) == p
  {
  }

  // ---------- The invariant ----------

  ghost predicate UpdateInv(s: Log, prior: Page, landed: nat) {
    && (s.mode.WriteCtrlBlock? || s.mode.IicFail?)
    && s.cb.magic == CONTROL_BLOCK_MAGIC && Sound(s.cb)
    && Sound(BlockOn(prior)) && s.store[LAST_PAGE] == Torn(prior, s.cb, landed)
  }

  ghost predicate Inv(s: Log, p: Phase) {
    && WriterHasMessage(s)
    && |s.pending| <= MAX_MESSAGE_QUEUE_SIZE
    && s.failures <= 6
    && match p
       case Starting => (s.mode.Init? || s.mode.IicFail?) && Sound(Recover(s.store))
       case Steady => !s.mode.Init? && !s.mode.WriteCtrlBlock? && s.cb == Recover(s.store) && Sound(s.cb)
       case Updating(prior, landed) => UpdateInv(s, prior, landed)
  }

  // ---------- The specification ----------

  /** `durable` is the log that was last saved as a whole, `live` the one in RAM. */
  datatype View = View(durable: seq<seq<byte>>, live: seq<seq<byte>>, pending: seq<Record>, deleting: bool)

  /** The block that the device held when it was last in order. */
  ghost function Saved(s: Log, p: Phase): ControlBlock {
    if p.Updating? then BlockOn(p.prior) else Recover(s.store)
  }

  /** The log of the RAM block, once start-up has read one; until then the one it will read. */
  ghost function Live(s: Log, p: Phase): seq<seq<byte>>
    requires Inv(s, p)
  {
    if p.Starting? then Durable(s.store) else LogOf(s.store, s.cb)
  }

  ghost function ViewOf(s: Log, p: Phase): View
    requires Inv(s, p)
  {
    View(LogOf(s.store, Saved(s, p)), Live(s, p), s.pending, s.startDelete)
  }

  /** The head of the queue joins the live log; only when nothing else is in flight. */
  ghost predicate Appends(a: View, b: View) {
    && a.pending != [] && a.live == a.durable
    && b == a.(live := Newest(a.live + [Payload(a.pending[0])], CAPACITY), pending := a.pending[1..])
  }

  ghost predicate Clears(a: View, b: View) {
    a.deleting && a.live == a.durable && b == a.(live := [])
  }

  predicate Takes(a: View, text: seq<byte>, reading: Option<Date>) {
    |text| < MAX_LOG_MESSAGE_SIZE && |a.pending| < MAX_MESSAGE_QUEUE_SIZE && reading.Some?
  }

  /** One event, as the specification allows it. The durable log only ever takes over the live log as a
      whole, by a transfer that was completed; a power cut drops the queue and leaves one of the two. */
  ghost predicate SpecStep(a: View, e: Event, b: View) {
    match e
    case Task(io) => b == a || Clears(a, b) || (io.Done? && (Appends(a, b) || b == a.(durable := a.live)))
    case LogEvent(text, reading, junk) =>
      b == if Takes(a, text, reading) then a.(pending := a.pending + [Record(reading.value, StrLcpy(junk, text))]) else a
    case DumpLog => b == a
    case DeleteLog => b == a.(deleting := true)
    case PowerCut(_) => b.durable in {a.durable, a.live} && b == View(b.durable, b.durable, [], false)
  }

  // ---------- One task step ----------

  lemma InitSafe(s: Log, io: Io)
    requires Inv(s, Starting) && s.mode.Init? && s.failures <= 5
    ensures var t, q := TaskStep(s, io), TrackTask(Starting, s, io);
            Inv(t, q) && !q.Updating? && ViewOf(t, q) == ViewOf(s, Starting)
  {
  }

  /** A state in which the update of the block has just begun. */
  lemma Begins(t: Log)
    requires t.mode.WriteCtrlBlock? && |t.pending| <= MAX_MESSAGE_QUEUE_SIZE && t.failures <= 6
    requires t.cb.magic == CONTROL_BLOCK_MAGIC && Sound(t.cb) && Sound(Recover(t.store))
    ensures var q := Updating(t.store[LAST_PAGE], 0);
            && Inv(t, q)
            && ViewOf(t, q) == View(Durable(t.store), LogOf(t.store, t.cb), t.pending, t.startDelete)
  {
    hide Torn, Sound, LogOf, BlockOn;
    TornNothing(t.store[LAST_PAGE], t.cb);
  }

  /** A state in which RAM and device agree. */
  lemma Agrees(t: Log)
    requires Inv(t, Steady)
    ensures ViewOf(t, Steady) == View(LogOf(t.store, t.cb), LogOf(t.store, t.cb), t.pending, t.startDelete)
    ensures LogOf(t.store, t.cb) == Durable(t.store)
  {
    hide Sound, LogOf, BlockOn;
  }

  lemma FreshIsEmpty(store: Store)
    ensures Sound(FRESH) && LogOf(store, FRESH) == []
  {
  }

  lemma DeleteSafe(s: Log, io: Io)
    requires Inv(s, Steady) && s.mode.ReadyRw? && s.failures <= 5 && s.startDelete
    ensures var t, q := TaskStep(s, io), TrackTask(Steady, s, io);
            q == Updating(s.store[LAST_PAGE], 0) && Inv(t, q) && Clears(ViewOf(s, Steady), ViewOf(t, q))
  {
    hide ViewOf, LogOf, Sound, BlockOn, Torn, Decode;
    var t := s.(cb := FRESH, mode := WriteCtrlBlock);
    FreshIsEmpty(s.store);
    Agrees(s);
    Begins(t);
  }

  lemma ReadySafe(s: Log, io: Io)
    requires Inv(s, Steady) && s.mode.ReadyRw? && s.failures <= 5
    ensures var t, q := TaskStep(s, io), TrackTask(Steady, s, io);
            && Inv(t, q) && (q.Updating? ==> q.landed == 0)
            && (ViewOf(t, q) == ViewOf(s, Steady) || Clears(ViewOf(s, Steady), ViewOf(t, q)))
  {
    hide LogOf, Sound, BlockOn, Torn, Decode;
    if s.startDelete {
      DeleteSafe(s, io);
    } else {
      assert ViewOf(TaskStep(s, io), Steady) == ViewOf(s, Steady);
    }
  }

  lemma WriteLogSafe(s: Log, io: Io)
    requires Inv(s, Steady) && s.mode.WriteLogMsg? && s.failures <= 5
    ensures var t, q := TaskStep(s, io), TrackTask(Steady, s, io);
            && Inv(t, q) && (q.Updating? ==> q.landed == 0)
            && (if io.Done? then Appends(ViewOf(s, Steady), ViewOf(t, q)) else ViewOf(t, q) == ViewOf(s, Steady))
  {
    if io.Done? {
      PageWritten(s);
    } else {
      PageTorn(s, io);
    }
  }

  /** What a completed page write leaves on the device. */
  lemma PageOnDevice(store: Store, cb: ControlBlock, r: Record)
    requires Sound(cb) && cb == Recover(store)
    ensures var store' := store[cb.nextFree := Overwrite(store[cb.nextFree], Payload(r))];
            && Sound(Advanced(cb)) && Recover(store') == cb && store'[LAST_PAGE] == store[LAST_PAGE]
            && LogOf(store', cb) == LogOf(store, cb)
            && LogOf(store', Advanced(cb)) == Newest(LogOf(store, cb) + [Payload(r)], CAPACITY)
  {
    var page := Overwrite(store[cb.nextFree], Payload(r));
    SlotWriteAppends(store, cb, r);
    SlotWrite(store, cb.nextFree, page);
    TornSlotIsOutside(store, cb, page);
  }

  lemma RecoveredHasMagic(store: Store)
    ensures Recover(store).magic == CONTROL_BLOCK_MAGIC && Advanced(Recover(store)).magic == CONTROL_BLOCK_MAGIC
  {
  }

  lemma PageWritten(s: Log)
    requires Inv(s, Steady) && s.mode.WriteLogMsg? && s.failures <= 5
    ensures var t, q := TaskStep(s, Done), TrackTask(Steady, s, Done);
            q == Updating(s.store[LAST_PAGE], 0) && Inv(t, q) && Appends(ViewOf(s, Steady), ViewOf(t, q))
  {
    hide LogOf, Sound, BlockOn, Recover, Payload, Advanced, TaskStep, ViewOf, Torn, Decode;
    var t := TaskStep(s, Done);
    FreeIsSlot(s.cb);
    WrittenState(s);
    PageOnDevice(s.store, s.cb, s.pending[0]);
    RecoveredHasMagic(s.store);
    Agrees(s);
    Begins(t);
  }

  lemma PageTorn(s: Log, io: Io)
    requires Inv(s, Steady) && s.mode.WriteLogMsg? && s.failures <= 5 && io.Failed?
    ensures var t := TaskStep(s, io);
            TrackTask(Steady, s, io) == Steady && Inv(t, Steady) && ViewOf(t, Steady) == ViewOf(s, Steady)
  {
    hide LogOf, Sound, BlockOn, Torn, Decode, Slots;
    FreeIsSlot(s.cb);
    SlotWrite(s.store, s.cb.nextFree, io.torn);
    TornSlotIsOutside(s.store, s.cb, io.torn);
    Agrees(s);
    assert TaskStep(s, io) == s.(failures := s.failures + 1, store := s.store[s.cb.nextFree := io.torn]);
    Agrees(TaskStep(s, io));
  }

  /** No write to the control page shows in a log window. */
  lemma BlockIsNoSlot(store: Store, cb: ControlBlock, landed: nat, window: ControlBlock)
    requires Sound(window)
    ensures LogOf(WithBlock(store, cb, landed), window) == LogOf(store, window)
  {
    BlockOutsideSlots(store, cb, landed);
  }

  lemma SaveSafe(s: Log, p: Phase)
    requires Inv(s, p) && s.mode.WriteCtrlBlock? && s.failures <= 5
    ensures var t := TaskStep(s, Done);
            TrackTask(p, s, Done) == Steady && Inv(t, Steady) && ViewOf(t, Steady) == ViewOf(s, p).(durable := ViewOf(s, p).live)
  {
    hide LogOf, Sound, BlockOn, Torn, WithBlock, Recover;
    WholeBlock(s.store, s.cb);
    BlockIsNoSlot(s.store, s.cb, CONTROL_SIZE, s.cb);
    var t := TaskStep(s, Done);
    assert t == s.(failures := 0, store := WithBlock(s.store, s.cb, CONTROL_SIZE), mode := ReadyRw);
    Agrees(t);
  }

  lemma TearSafe(s: Log, p: Phase, io: Io)
    requires Inv(s, p) && s.mode.WriteCtrlBlock? && s.failures <= 5 && io.Failed?
    ensures var t, q := TaskStep(s, io), TrackTask(p, s, io);
            q.Updating? && Inv(t, q) && ViewOf(t, q) == ViewOf(s, p)
  {
    hide LogOf, Sound, BlockOn, Torn;
    BlockIsNoSlot(s.store, s.cb, io.landed, s.cb);
    BlockIsNoSlot(s.store, s.cb, io.landed, BlockOn(p.prior));
    TornTwice(p.prior, s.cb, p.landed, io.landed);
    assert TaskStep(s, io) == s.(failures := s.failures + 1, store := WithBlock(s.store, s.cb, io.landed));
  }

  lemma WriteCtrlSafe(s: Log, p: Phase, io: Io)
    requires Inv(s, p) && s.mode.WriteCtrlBlock? && s.failures <= 5
    ensures var t, q := TaskStep(s, io), TrackTask(p, s, io);
            && Inv(t, q) && (io.Done? <==> !q.Updating?)
            && ViewOf(t, q) == if io.Done? then ViewOf(s, p).(durable := ViewOf(s, p).live) else ViewOf(s, p)
  {
    hide Inv, TaskStep, TrackTask, ViewOf;
    if io.Done? {
      SaveSafe(s, p);
    } else {
      TearSafe(s, p, io);
    }
  }

  lemma ReadbackSafe(s: Log, io: Io)
    requires Inv(s, Steady) && s.mode.ReadbackLog? && s.failures <= 5
    ensures var t, q := TaskStep(s, io), TrackTask(Steady, s, io);
            Inv(t, q) && q == Steady && ViewOf(t, q) == ViewOf(s, Steady)
  {
    hide LogOf, Sound, BlockOn;
    var t := TaskStep(s, io);
    assert t.store == s.store && t.cb == s.cb && t.pending == s.pending && t.startDelete == s.startDelete;
  }

  lemma StoppedSafe(s: Log, p: Phase, io: Io)
    requires Inv(s, p) && (s.failures > 5 || s.mode.IicFail?)
    ensures var t, q := TaskStep(s, io), TrackTask(p, s, io);
            Inv(t, q) && q == p && ViewOf(t, q) == ViewOf(s, p)
  {
  }

  /** A task step, whatever its transfer does, keeps the invariant and is a step of the specification. */
  lemma TaskSafe(s: Log, p: Phase, io: Io)
    requires Inv(s, p)
    ensures var t, q := TaskStep(s, io), TrackTask(p, s, io);
            && Inv(t, q) && SpecStep(ViewOf(s, p), Task(io), ViewOf(t, q))
            && (q.Updating? ==> ViewOf(t, q).durable == ViewOf(s, p).durable)
            && (q.Updating? && q.landed > 0 ==> ViewOf(t, q) == ViewOf(s, p))
            && (!q.Updating? ==> ViewOf(t, q).durable in {ViewOf(s, p).durable, ViewOf(s, p).live})
  {
    if s.failures > 5 || s.mode.IicFail? {
      StoppedSafe(s, p, io);
    } else {
      match s.mode
      case Init => InitSafe(s, io);
      case ReadyRw => ReadySafe(s, io);
      case WriteLogMsg => WriteLogSafe(s, io);
      case WriteCtrlBlock => WriteCtrlSafe(s, p, io);
      case ReadbackLog => ReadbackSafe(s, io);
    }
  }

  // ---------- Power cuts ----------

  /** What start-up would find if the power failed right here is no mixture of two blocks. */
  ghost predicate CleanNow(s: Log, p: Phase) {
    p.Updating? ==> CleanTear(p.prior, s.cb, p.landed)
  }

  /** The one demand on a run: the tear that a power cut leaves on the device is clean. Failed transfers
      that are repeated before the power fails may have landed anything. */
  ghost predicate CleanEvent(p: Phase, s: Log, e: Event)
    requires WriterHasMessage(s)
  {
    e.PowerCut? ==> CleanNow(TaskStep(s, e.io), TrackTask(p, s, e.io))
  }

  /** The state after a power cut right here and one successful start-up step. */
  ghost function Restarted(s: Log): Log {
    TaskStep(Reset(s), Done)
  }

  lemma SameWindow(store: Store, a: ControlBlock, b: ControlBlock)
    requires BlockWindow(a) == BlockWindow(b) && Sound(b)
    ensures Sound(a) && LogOf(store, a) == LogOf(store, b)
  {
  }

  /** Exactly then: a power cut inside an update leaves the window of before or the new one if and
      only if the tear is clean. */
  lemma TornUpdate(s: Log, p: Phase)
    requires Inv(s, p) && p.Updating?
    ensures BlockWindow(Recover(s.store)) in {BlockWindow(BlockOn(p.prior)), BlockWindow(s.cb)} <==> CleanNow(s, p)
    ensures p.landed == 0 ==> Recover(s.store) == BlockOn(p.prior)
  {
    hide CleanTear, BlockOn, Torn, Sound, BlockWindow;
    TearOutcome(p.prior, s.cb, p.landed);
    TornNothing(p.prior, s.cb);
  }

  /** Start-up after a power cut finds the durable log or the live one; outside an update they are the same. */
  lemma RestartFinds(s: Log, p: Phase)
    requires Inv(s, p) && CleanNow(s, p)
    ensures Sound(Recover(s.store))
    ensures Durable(s.store) in {ViewOf(s, p).durable, ViewOf(s, p).live}
    ensures !p.Updating? || p.landed == 0 ==> Durable(s.store) == ViewOf(s, p).durable
    ensures !p.Updating? ==> ViewOf(s, p).live == ViewOf(s, p).durable
    ensures p.Updating? ==>
              Durable(s.store) == if BlockWindow(Recover(s.store)) == BlockWindow(s.cb) then ViewOf(s, p).live else ViewOf(s, p).durable
  {
    hide CleanTear, BlockOn, Torn, CleanNow, LogOf, Decode;
    if p.Updating? {
      TornUpdate(s, p);
      if BlockWindow(Recover(s.store)) == BlockWindow(s.cb) {
        SameWindow(s.store, Recover(s.store), s.cb);
      } else {
        SameWindow(s.store, Recover(s.store), BlockOn(p.prior));
      }
    }
  }

  lemma ResetSafe(s: Log)
    requires Sound(Recover(s.store))
    ensures Inv(Reset(s), Starting)
    ensures ViewOf(Reset(s), Starting) == View(Durable(s.store), Durable(s.store), [], false)
    ensures Inv(Restarted(s), Steady) && ViewOf(Restarted(s), Steady) == ViewOf(Reset(s), Starting)
  {
    hide LogOf, Sound, BlockOn;
  }

  lemma CutSafe(s: Log, p: Phase, io: Io)
    requires Inv(s, p) && CleanEvent(p, s, PowerCut(io))
    ensures Inv(Next(s, PowerCut(io)), Starting)
    ensures SpecStep(ViewOf(s, p), PowerCut(io), ViewOf(Next(s, PowerCut(io)), Starting))
  {
    var t, q := TaskStep(s, io), TrackTask(p, s, io);
    TaskSafe(s, p, io);
    RestartFinds(t, q);
    ResetSafe(t);
  }

  // ---------- Whole runs ----------

  /** Every event of the logger is one step of the specification. */
  lemma StepSafe(s: Log, p: Phase, e: Event)
    requires Inv(s, p) && CleanEvent(p, s, e)
    ensures Inv(Next(s, e), Track(p, s, e)) && SpecStep(ViewOf(s, p), e, ViewOf(Next(s, e), Track(p, s, e)))
  {
    match e
    case Task(io) => TaskSafe(s, p, io);
    case PowerCut(io) => CutSafe(s, p, io);
    case LogEvent(text, reading, junk) => MessageSafe(s, p, e);
    case DumpLog => MessageSafe(s, p, e);
    case DeleteLog => MessageSafe(s, p, e);
  }

  lemma MessageSafe(s: Log, p: Phase, e: Event)
    requires Inv(s, p) && !e.Task? && !e.PowerCut?
    ensures Inv(Next(s, e), p) && SpecStep(ViewOf(s, p), e, ViewOf(Next(s, e), p))
  {
    hide LogOf, Sound, BlockOn, Torn;
  }

  ghost predicate CleanRun(p: Phase, s: Log, es: seq<Event>)
    requires WriterHasMessage(s)
    decreases |es|
  {
    es == [] ||
    (var most := es[..|es| - 1];
     CleanRun(p, s, most) && CleanEvent(PhaseAfter(p, s, most), Run(s, most), es[|es| - 1]))
  }

  lemma InvWrites(s: Log, p: Phase)
    requires Inv(s, p)
    ensures WriterHasMessage(s)
  {
  }

  lemma {:induction false} CleanPrefix(p: Phase, s: Log, es: seq<Event>, i: nat)
    requires WriterHasMessage(s) && CleanRun(p, s, es) && i <= |es|
    ensures CleanRun(p, s, es[..i])
    decreases |es|
  {
    hide CleanEvent;
    if i == |es| {
      assert es[..i] == es;
    } else {
      assert es[..|es| - 1][..i] == es[..i];
      CleanPrefix(p, s, es[..|es| - 1], i);
    }
  }

  lemma {:induction false} RunKeepsInv(p: Phase, s: Log, es: seq<Event>)
    requires Inv(s, p) && CleanRun(p, s, es)
    ensures Inv(Run(s, es), PhaseAfter(p, s, es))
    decreases |es|
  {
    hide Inv, CleanEvent, Next, Track, WriterHasMessage;
    InvWrites(s, p);
    if es != [] {
      var most := es[..|es| - 1];
      RunKeepsInv(p, s, most);
      StepSafe(Run(s, most), PhaseAfter(p, s, most), es[|es| - 1]);
    }
  }

  /** Any run, with any bus failures, torn slots, torn and repaired blocks and clean power cuts, is a
      run of the specification. */
  lemma RunRefines(p: Phase, s: Log, es: seq<Event>, i: nat)
    requires Inv(s, p) && CleanRun(p, s, es) && i < |es|
    ensures var a, b := es[..i], es[..i + 1];
            && Inv(Run(s, a), PhaseAfter(p, s, a)) && Inv(Run(s, b), PhaseAfter(p, s, b))
            && SpecStep(ViewOf(Run(s, a), PhaseAfter(p, s, a)), es[i], ViewOf(Run(s, b), PhaseAfter(p, s, b)))
  {
    hide Inv, CleanEvent, Next, Track, ViewOf, SpecStep, WriterHasMessage;
    InvWrites(s, p);
    CleanPrefix(p, s, es, i + 1);
    assert es[..i + 1][..i] == es[..i];
    RunKeepsInv(p, s, es[..i]);
    StepSafe(Run(s, es[..i]), PhaseAfter(p, s, es[..i]), es[i]);
  }

  /** The live log is the durable one, or one append or deletion ahead of it. */
  ghost predicate OneAhead(v: View) {
    || v.live == v.durable
    || (v.deleting && v.live == [])
    || exists r :: v.live == Newest(v.durable + [Payload(r)], CAPACITY)
  }

  lemma StaysOneAhead(a: View, e: Event, b: View)
    requires OneAhead(a) && SpecStep(a, e, b)
    ensures OneAhead(b)
  {
    if e.Task? && Appends(a, b) {
      assert b.live == Newest(b.durable + [Payload(a.pending[0])], CAPACITY);
    }
  }

  lemma {:induction false} RunStaysOneAhead(p: Phase, s: Log, es: seq<Event>)
    requires Inv(s, p) && CleanRun(p, s, es) && OneAhead(ViewOf(s, p))
    ensures Inv(Run(s, es), PhaseAfter(p, s, es)) && OneAhead(ViewOf(Run(s, es), PhaseAfter(p, s, es)))
    decreases |es|
  {
    hide Inv, CleanEvent, Next, Track, ViewOf, SpecStep, OneAhead, WriterHasMessage;
    InvWrites(s, p);
    if es != [] {
      var most := es[..|es| - 1];
      RunStaysOneAhead(p, s, most);
      StepSafe(Run(s, most), PhaseAfter(p, s, most), es[|es| - 1]);
      StaysOneAhead(ViewOf(Run(s, most), PhaseAfter(p, s, most)), es[|es| - 1], ViewOf(Run(s, es), PhaseAfter(p, s, es)));
    }
  }

  /** Powering up a device with a sound block, or without the magic word, begins such a run. */
  lemma PowerUpIsSafe(store: Store)
    requires Sound(Recover(store))
    ensures Inv(PowerUp(store), Starting)
    ensures ViewOf(PowerUp(store), Starting) == View(Durable(store), Durable(store), [], false)
  {
  }

  /** Crash consistency. After any run from power-up, cutting the power and starting again finds the live
      log, unless an update of the control block is under way or was given up. Inside such an update it
      finds the block of before or the new one if and only if the tear is clean; then the log found is the
      live one or the durable one, which lack nothing but the one append or deletion in flight. */
  lemma CrashConsistency(store: Store, es: seq<Event>)
    requires Sound(Recover(store)) && CleanRun(Starting, PowerUp(store), es)
    ensures var t, q := Run(PowerUp(store), es), PhaseAfter(Starting, PowerUp(store), es);
            && Inv(t, q)
            && OneAhead(ViewOf(t, q))
            && (q.Updating? ==>
                  (BlockWindow(Restarted(t).cb) in {BlockWindow(BlockOn(q.prior)), BlockWindow(t.cb)}
                   <==> CleanTear(q.prior, t.cb, q.landed)))
            && (!q.Updating? ==> ViewOf(t, q).live == ViewOf(t, q).durable)
            && (q.Steady? ==> t.cb == Restarted(t).cb)
            && (CleanNow(t, q) ==>
                  && Inv(Restarted(t), Steady) && Restarted(t).mode.ReadyRw?
                  && Live(Restarted(t), Steady) in {ViewOf(t, q).live, ViewOf(t, q).durable})
  {
    PowerUpIsSafe(store);
    RunStaysOneAhead(Starting, PowerUp(store), es);
    var t, q := Run(PowerUp(store), es), PhaseAfter(Starting, PowerUp(store), es);
    FromHere(t, q);
  }

  lemma FromHere(t: Log, q: Phase)
    requires Inv(t, q)
    ensures q.Updating? ==>
              (BlockWindow(Restarted(t).cb) in {BlockWindow(BlockOn(q.prior)), BlockWindow(t.cb)}
               <==> CleanTear(q.prior, t.cb, q.landed))
    ensures !q.Updating? ==> ViewOf(t, q).live == ViewOf(t, q).durable
    ensures q.Steady? ==> t.cb == Restarted(t).cb
    ensures CleanNow(t, q) ==>
              && Inv(Restarted(t), Steady) && Restarted(t).mode.ReadyRw?
              && Live(Restarted(t), Steady) in {ViewOf(t, q).live, ViewOf(t, q).durable}
  {
    hide LogOf, Sound, BlockOn, Torn, CleanTear;
    if q.Updating? {
      TornUpdate(t, q);
    } else {
      Agree(t, q);
    }
    if CleanNow(t, q) {
      RestartFinds(t, q);
      ResetSafe(t);
    }
  }

  lemma Agree(t: Log, q: Phase)
    requires Inv(t, q) && !q.Updating?
    ensures ViewOf(t, q).live == ViewOf(t, q).durable
  {
  }

  /** The slot a write aims at is a log slot and lies outside the window start-up would find. */
  lemma WriteAimsOutside(p: Phase, s: Log, es: seq<Event>)
    requires Inv(s, p) && CleanRun(p, s, es) && Run(s, es).mode.WriteLogMsg?
    ensures var t := Run(s, es);
            && Sound(Recover(t.store)) && t.cb.nextFree < LAST_PAGE
            && forall i :: 0 <= i < Count(SLOTS, BlockWindow(Recover(t.store))) ==>
                 SlotAt(SLOTS, BlockWindow(Recover(t.store)), i) != t.cb.nextFree
  {
    RunKeepsInv(p, s, es);
  }

  // ---------- A tear that is not clean ----------

  lemma RunSnoc(p: Phase, s: Log, es: seq<Event>, e: Event)
    requires WriterHasMessage(s)
    ensures Run(s, es + [e]) == Next(Run(s, es), e)
    ensures PhaseAfter(p, s, es + [e]) == Track(PhaseAfter(p, s, es), Run(s, es), e)
  {
    assert (es + [e])[..|es|] == es;
  }

  const COUNTED := ControlBlock(CONTROL_BLOCK_MAGIC, 255, 0, 255)
  const COUNTING := ControlBlock(CONTROL_BLOCK_MAGIC, 256, 0, 256)

  lemma LostWindow(page: Page)
    requires Decode(page) == COUNTED
    ensures BlockOn(Torn(page, COUNTING, 7)).oldest == 0 == BlockOn(Torn(page, COUNTING, 7)).nextFree
    ensures !CleanTear(page, COUNTING, 7)
  {
    TornBytes(page, COUNTING, 7);
    WordsEqual(page[6], page[7], 255);
    MagicOf(Torn(page, COUNTING, 7));
    IndexBytes(Torn(page, COUNTING, 7), FRESH);
    assert Low(256) == 0 && High(255) == 0 && Low(0) == 0 && High(0) == 0;
    TearOutcome(page, COUNTING, 7);
    hide CleanTear, Torn, Low, High, Encode, Word;
  }

  /** Cutting the power after 7 bytes of that block. */
  lemma LostLog(u: Log, torn: Page)
    requires u.mode.WriteCtrlBlock? && u.failures <= 5 && u.cb == COUNTING && Decode(u.store[LAST_PAGE]) == COUNTED
    ensures var t := Next(u, PowerCut(Failed(torn, 7, FRESH)));
            Sound(Recover(t.store)) && Durable(t.store) == []
    ensures !CleanEvent(Updating(u.store[LAST_PAGE], 0), u, PowerCut(Failed(torn, 7, FRESH)))
  {
    hide CleanTear, Torn, Decode, Encode, BlockOn, LogOf, Sound;
    LostWindow(u.store[LAST_PAGE]);
    var t := TaskStep(u, Failed(torn, 7, FRESH));
    assert t.cb == COUNTING && t.store == WithBlock(u.store, COUNTING, 7);
    SameWindow(t.store, Recover(t.store), FRESH) by { FreshIsEmpty(t.store); }
    FreshIsEmpty(t.store);
  }

  lemma CountedLog(store: Store)
    requires Decode(store[LAST_PAGE]) == COUNTED
    ensures Sound(Recover(store)) && |Durable(store)| == 255
  {
    ContentsAt(Slots(store), BlockWindow(Recover(store)));
  }

  /** On a device that holds 255 entries, start-up, one message, and a power cut before the last byte of
      the control block that was to count it: the next start-up finds an empty log. */
  lemma UncleanCutLosesTheLog(store: Store, text: seq<byte>, date: Date, junk: MessageBuffer, torn: Page)
    requires Decode(store[LAST_PAGE]) == COUNTED
    requires |text| < MAX_LOG_MESSAGE_SIZE
    ensures var es := [Task(Done), LogEvent(text, Some(date), junk), Task(Done), Task(Done), PowerCut(Failed(torn, 7, FRESH))];
            var t := Run(PowerUp(store), es);
            && Sound(Recover(store)) && |Durable(store)| == 255
            && Inv(Restarted(t), Steady) && Restarted(t).mode.ReadyRw? && Live(Restarted(t), Steady) == []
            && !CleanRun(Starting, PowerUp(store), es)
  {
    hide CleanEvent, LogOf, Decode, Next, Track, Run, PhaseAfter, Inv, Restarted, Live, ViewOf, PowerUp;
    var s, cut := PowerUp(store), PowerCut(Failed(torn, 7, FRESH));
    var a := [Task(Done), LogEvent(text, Some(date), junk), Task(Done), Task(Done)];
    var es := [Task(Done), LogEvent(text, Some(date), junk), Task(Done), Task(Done), cut];
    CountedLog(store);
    CountedAppend(store, es[1]);
    AppendsFirst(store, es[1]);
    RunSnoc(Starting, s, a, cut);
    assert a + [cut] == es && es[..4] == a && es[4] == cut;
    LostLog(Run(s, a), torn);
    LiveOfRestarted(Run(s, es));
  }

  lemma CountedAppend(store: Store, say: Event)
    requires Decode(store[LAST_PAGE]) == COUNTED
    requires say.LogEvent? && |say.text| < MAX_LOG_MESSAGE_SIZE && say.reading.Some?
    ensures Recover(store).nextFree <= LAST_PAGE
    ensures var u := FirstAppend(store, say);
            u.mode.WriteCtrlBlock? && u.failures <= 5 && u.cb == COUNTING && u.store[LAST_PAGE] == store[LAST_PAGE]
  {
    hide StrLcpy, Payload, Decode;
  }

  lemma LiveOfRestarted(t: Log)
    requires Sound(Recover(t.store))
    ensures Inv(Restarted(t), Steady) && Restarted(t).mode.ReadyRw? && Live(Restarted(t), Steady) == Durable(t.store)
  {
    ResetSafe(t);
  }

  /** The state in which the block is to be saved that counts the first message after a power-up. */
  ghost function FirstAppend(store: Store, say: Event): (s: Log)
    requires say.LogEvent? && |say.text| < MAX_LOG_MESSAGE_SIZE && say.reading.Some? && Recover(store).nextFree <= LAST_PAGE
    ensures WriterHasMessage(s)
  {
    var cb, r := Recover(store), Record(say.reading.value, StrLcpy(say.junk, say.text));
    PowerUp(store).(mode := WriteCtrlBlock, cb := Advanced(cb),
                    store := store[cb.nextFree := Overwrite(store[cb.nextFree], Payload(r))])
  }

  /** The four steps up to there, one by one. */
  lemma StepsToAppend(store: Store, say: Event)
    requires say.LogEvent? && |say.text| < MAX_LOG_MESSAGE_SIZE && say.reading.Some? && Recover(store).nextFree <= LAST_PAGE
    ensures var r := Record(say.reading.value, StrLcpy(say.junk, say.text));
            var s1 := PowerUp(store).(mode := ReadyRw, cb := Recover(store));
            var s2 := s1.(pending := [r]);
            var s3 := s2.(mode := WriteLogMsg);
            && s3.failures == 0
            && TaskStep(PowerUp(store), Done) == s1 && Next(s1, say) == s2 && TaskStep(s2, Done) == s3
            && TaskStep(s3, Done) == FirstAppend(store, say)
            && TrackTask(Starting, PowerUp(store), Done) == TrackTask(Steady, s2, Done) == Steady
            && TrackTask(Steady, s3, Done) == Updating(store[LAST_PAGE], 0)
  {
    hide StrLcpy, Payload, Overwrite, Recover, Advanced, ReadbackStep, WriteCtrlStep;
  }

  lemma AppendsFirst(store: Store, say: Event)
    requires say.LogEvent? && |say.text| < MAX_LOG_MESSAGE_SIZE && say.reading.Some? && Recover(store).nextFree <= LAST_PAGE
    ensures var a := [Task(Done), say, Task(Done), Task(Done)];
            && Run(PowerUp(store), a) == FirstAppend(store, say)
            && (var s3 := Run(PowerUp(store), [Task(Done), say, Task(Done)]);
                s3.mode.WriteLogMsg? && s3.failures == 0 && s3.cb == Recover(store))
            && PhaseAfter(Starting, PowerUp(store), a) == Updating(store[LAST_PAGE], 0)
  {
    hide PowerUp, Run, PhaseAfter, TaskStep, TrackTask, Recover, CreateLogEntry, StrLcpy, FirstAppend;
    var s := PowerUp(store);
    StepsToAppend(store, say);
    NoEvents(s);
    NoPhase(Starting, s);
    RunSnoc(Starting, s, [], Task(Done));
    RunSnoc(Starting, s, [Task(Done)], say);
    RunSnoc(Starting, s, [Task(Done), say], Task(Done));
    RunSnoc(Starting, s, [Task(Done), say, Task(Done)], Task(Done));
    assert [] + [Task(Done)] == [Task(Done)];
    assert [Task(Done)] + [say] == [Task(Done), say];
    assert [Task(Done), say] + [Task(Done)] == [Task(Done), say, Task(Done)];
    assert [Task(Done), say, Task(Done)] + [Task(Done)] == [Task(Done), say, Task(Done), Task(Done)];
  }
}
