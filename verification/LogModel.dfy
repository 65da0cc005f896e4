/** The data logger as a state machine on values: what one call of its task loop, one
    delivered message or one power cut does to RAM and to the EEPROM pages. */
module LogModel {
  import opened Bytes
  import opened E2Driver
  import opened Iic
  import opened RingLog

  const SLOTS := LAST_PAGE
  const DATE_SIZE := 7
  const MAX_LOG_MESSAGE_SIZE := PAGE_SIZE - DATE_SIZE
  const MAX_MESSAGE_QUEUE_SIZE := 3
  const CONTROL_BLOCK_MAGIC: u16 := 0xAAAA
  const CONTROL_SIZE := 8

  datatype Option<T> = None | Some(value: T)

  // ---------- The two persistent records ----------

  datatype ControlBlock = ControlBlock(magic: u16, entries: u16, oldest: u16, nextFree: u16)

  const FRESH := ControlBlock(CONTROL_BLOCK_MAGIC, 0, 0, 0)
  const ZERO_BLOCK := ControlBlock(0, 0, 0, 0)

  /** The block as it lies in memory: four little-endian words. */
  function Encode(cb: ControlBlock): (bytes: seq<byte>)
    ensures |bytes| == CONTROL_SIZE
  {
    [Low(cb.magic), High(cb.magic), Low(cb.entries), High(cb.entries),
     Low(cb.oldest), High(cb.oldest), Low(cb.nextFree), High(cb.nextFree)]
  }

  function Decode(bytes: seq<byte>): ControlBlock
    requires CONTROL_SIZE <= |bytes|
  {
    ControlBlock(Word(bytes[0], bytes[1]), Word(bytes[2], bytes[3]),
                 Word(bytes[4], bytes[5]), Word(bytes[6], bytes[7]))
  }

  type Date = d: seq<byte> | |d| == DATE_SIZE ghost witness seq(DATE_SIZE, _ => 0)
  type MessageBuffer = m: seq<byte> | |m| == MAX_LOG_MESSAGE_SIZE ghost witness seq(MAX_LOG_MESSAGE_SIZE, _ => 0)

  /** A log page in RAM, without its link. */
  datatype Record = Record(date: Date, message: MessageBuffer)

  /** What one write puts into a slot: `MAX_LOG_MESSAGE_SIZE` bytes from the start of the
      record, that is the date and only the first 50 bytes of the message. */
  function Payload(r: Record): (p: seq<byte>)
    ensures |p| == MAX_LOG_MESSAGE_SIZE
  {
    (r.date + r.message)[..MAX_LOG_MESSAGE_SIZE]
  }

  function Payloads(rs: seq<Record>): (ps: seq<seq<byte>>)
    ensures |ps| == |rs|
  {
    seq(|rs|, i requires 0 <= i < |rs| => Payload(rs[i]))
  }

  // ---------- State ----------

  datatype Mode = Init | ReadyRw | WriteLogMsg | WriteCtrlBlock | ReadbackLog | IicFail

  datatype Log = Log(
    mode: Mode,
    cb: ControlBlock,
    pending: seq<Record>,     // the list from pHead to pEnd
    cursor: u16,              // next_to_read
    failures: byte,           // IIC_failures
    startReadback: bool,
    startDelete: bool,
    store: Store,             // the EEPROM, which survives a power cut
    dumped: seq<Page>)        // pages handed to the serial port by the readback

  /** How the bus transfer of one task step ends. A failed transfer may leave any bytes in the
      slot it was writing (`torn`), the first `landed` bytes of a control block in the last
      page, or a half-read control block in RAM (`partial`). */
  datatype Io = Done | Failed(torn: Page, landed: nat, partial: ControlBlock)

  ghost predicate WriterHasMessage(s: Log) {
    s.mode.WriteLogMsg? ==> s.pending != []
  }

  // ---------- One call of the task loop ----------

  function BlockWindow(cb: ControlBlock): Window { Window(cb.oldest, cb.nextFree) }

  /** The control block after a page was written into its free slot. */
  function Advanced(cb: ControlBlock): ControlBlock {
    var entries := if cb.entries < LAST_PAGE then cb.entries + 1 else cb.entries;
    var next := Next16(cb.nextFree);
    var nextFree := if next >= LAST_PAGE then 0 else next;
    var oldest := if nextFree == cb.oldest then Next16(cb.oldest) else cb.oldest;
    ControlBlock(cb.magic, entries, if oldest >= LAST_PAGE then 0 else oldest, nextFree)
  }

  /** The block that start-up takes from a control page: the one it holds, or a fresh one without
      the magic word. */
  ghost function BlockOn(page: Page): ControlBlock {
    var block := Decode(page);
    if block.magic == CONTROL_BLOCK_MAGIC then block else FRESH
  }

  ghost function Recover(store: Store): ControlBlock { BlockOn(store[LAST_PAGE]) }

  ghost function InitStep(s: Log, io: Io): Log
    requires s.failures <= 5
  {
    match io
    case Failed(_, _, partial) => s.(failures := s.failures + 1, cb := partial)
    case Done => s.(cb := Recover(s.store), failures := 0, mode := ReadyRw)
  }

  ghost function ReadyStep(s: Log): Log {
    if s.startDelete then s.(cb := FRESH, mode := WriteCtrlBlock)
    else if s.startReadback then s.(startReadback := false, cursor := s.cb.oldest, mode := ReadbackLog)
    else if s.pending != [] then s.(mode := WriteLogMsg)
    else s
  }

  ghost function WriteLogStep(s: Log, io: Io): Log
    requires s.failures <= 5 && s.pending != []
  {
    if s.cb.nextFree > LAST_PAGE then s.(failures := s.failures + 1)
    else
      var slot := s.cb.nextFree;
      match io
      case Failed(torn, _, _) => s.(failures := s.failures + 1, store := s.store[slot := torn])
      case Done => s.(store := s.store[slot := Overwrite(s.store[slot], Payload(s.pending[0]))],
                      pending := s.pending[1..],
                      cb := Advanced(s.cb),
                      failures := 0,
                      mode := WriteCtrlBlock)
  }

  /** A page after the first `landed` bytes of the block reached it. */
  ghost function Torn(page: Page, cb: ControlBlock, landed: nat): Page {
    Overwrite(page, Encode(cb)[..if landed < CONTROL_SIZE then landed else CONTROL_SIZE])
  }

  ghost function WithBlock(store: Store, cb: ControlBlock, landed: nat): Store {
    store[LAST_PAGE := Torn(store[LAST_PAGE], cb, landed)]
  }

  ghost function WriteCtrlStep(s: Log, io: Io): Log
    requires s.failures <= 5
  {
    match io
    case Failed(_, landed, _) => s.(failures := s.failures + 1, store := WithBlock(s.store, s.cb, landed))
    case Done => s.(failures := 0, store := WithBlock(s.store, s.cb, CONTROL_SIZE), mode := ReadyRw)
  }

  ghost function ReadbackStep(s: Log, io: Io): Log
    requires s.failures <= 5
  {
    if s.cursor > LAST_PAGE || io.Failed? then s.(failures := s.failures + 1)
    else
      var next := Next16(s.cursor);
      var s' := s.(dumped := s.dumped + [s.store[s.cursor]], cursor := next);
      if next == s.cb.nextFree then s'.(mode := ReadyRw)
      else if next >= LAST_PAGE then s'.(cursor := 0)
      else s'
  }

  ghost function TaskStep(s: Log, io: Io): (s': Log)
    requires WriterHasMessage(s)
    ensures WriterHasMessage(s')
  {
    if s.failures > 5 then s.(mode := IicFail)
    else
      match s.mode
      case Init => InitStep(s, io)
      case ReadyRw => ReadyStep(s)
      case WriteLogMsg => WriteLogStep(s, io)
      case WriteCtrlBlock => WriteCtrlStep(s, io)
      case ReadbackLog => ReadbackStep(s, io)
      case IicFail => s
  }

  /** The write step when its transfer is completed. */
  lemma WrittenState(s: Log)
    requires WriterHasMessage(s) && s.mode.WriteLogMsg? && s.failures <= 5 && s.cb.nextFree <= LAST_PAGE
    ensures TaskStep(s, Done) ==
              s.(store := s.store[s.cb.nextFree := Overwrite(s.store[s.cb.nextFree], Payload(s.pending[0]))],
                 pending := s.pending[1..], cb := Advanced(s.cb), failures := 0, mode := WriteCtrlBlock)
  {
  }

  /** How the bus answers the at most two transfers of a task step. */
  datatype Bus = Bus(first: Answers, second: Answers)

  /** The step's transfers are all answered to the last byte, and the driver does not refuse the page. */
  predicate Served(s: Log, bus: Bus) {
    match s.mode
    case Init => AllAnswered(bus.first, 2) && AllAnswered(bus.second, CONTROL_SIZE)
    case WriteLogMsg => s.cb.nextFree <= LAST_PAGE && AllAnswered(bus.first, 2 + MAX_LOG_MESSAGE_SIZE)
    case WriteCtrlBlock => AllAnswered(bus.first, 2 + CONTROL_SIZE)
    case ReadbackLog => s.cursor <= LAST_PAGE && AllAnswered(bus.first, 2) && AllAnswered(bus.second, PAGE_SIZE)
    case _ => true
  }

  /** How the step's transfer ends, then: what a failed one got across decides what it leaves. */
  ghost function IoOf(s: Log, bus: Bus): Io
    requires WriterHasMessage(s)
  {
    if s.failures > 5 || Served(s, bus) then Done
    else
      var torn := if s.mode.WriteLogMsg? && s.cb.nextFree <= LAST_PAGE
                  then Overwrite(s.store[s.cb.nextFree], Payload(s.pending[0])[..Landed(bus.first, MAX_LOG_MESSAGE_SIZE)])
                  else s.store[LAST_PAGE];
      var k := Read(bus.first, bus.second, CONTROL_SIZE);
      Failed(torn, Landed(bus.first, CONTROL_SIZE), Decode(s.store[LAST_PAGE][..k] + Encode(s.cb)[k..]))
  }

  /** A bus that answers everything fails no step, unless the page is beyond the last. */
  lemma GoodBus(s: Log, bus: Bus)
    requires WriterHasMessage(s)
    requires AllAnswered(bus.first, PAGE_SIZE + 2) && AllAnswered(bus.second, PAGE_SIZE)
    requires s.mode.WriteLogMsg? ==> s.cb.nextFree <= LAST_PAGE
    requires s.mode.ReadbackLog? ==> s.cursor <= LAST_PAGE
    ensures IoOf(s, bus) == Done
  {
  }

  // ---------- Messages and power cuts ----------

  /** `strlcpy` of a text that fits: the text, its NUL, and whatever the buffer held behind. */
  function StrLcpy(junk: MessageBuffer, text: seq<byte>): MessageBuffer
    requires |text| < MAX_LOG_MESSAGE_SIZE
  {
    text + [0] + junk[|text| + 1..]
  }

  /** When `CreateLogEntry` takes a message. `reading` is what the clock chip answers. */
  predicate Accepts(s: Log, text: seq<byte>, reading: Option<Date>) {
    |text| < MAX_LOG_MESSAGE_SIZE && |s.pending| < MAX_MESSAGE_QUEUE_SIZE && reading.Some?
  }

  function CreateLogEntry(s: Log, text: seq<byte>, reading: Option<Date>, junk: MessageBuffer): Log {
    if Accepts(s, text, reading) then
      s.(pending := s.pending + [Record(reading.value, StrLcpy(junk, text))])
    else s
  }

  /** A text is taken exactly if it has at most 56 bytes, fewer than three records wait and the clock answers:
      its record, the clock's date with the text, a NUL and what the buffer held behind, joins the end of the
      queue. Otherwise nothing changes. */
  lemma TakenIff(s: Log, text: seq<byte>, reading: Option<Date>, junk: MessageBuffer)
    ensures var t := CreateLogEntry(s, text, reading, junk);
            && t == s.(pending := t.pending)
            && (if |text| <= 56 && |s.pending| <= 2 && reading.Some? then
                  && |t.pending| == |s.pending| + 1 && t.pending[..|s.pending|] == s.pending
                  && var r := t.pending[|s.pending|];
                     && r.date == reading.value && |r.message| == 57 && r.message[..|text|] == text && r.message[|text|] == 0
                     && r.message[|text| + 1..] == junk[|text| + 1..]
                else t == s)
  {
  }

  /** RAM after a reset; the EEPROM and what was printed stay. */
  ghost function Reset(s: Log): Log {
    Log(Init, ZERO_BLOCK, [], 0, 0, false, false, s.store, s.dumped)
  }

  ghost function PowerUp(store: Store): (s: Log)
    ensures WriterHasMessage(s)
  {
    Log(Init, ZERO_BLOCK, [], 0, 0, false, false, store, [])
  }

  datatype Event =
    | Task(io: Io)
    | LogEvent(text: seq<byte>, reading: Option<Date>, junk: MessageBuffer)
    | DumpLog
    | DeleteLog
    | PowerCut(io: Io) // in the middle of a task step whose transfer got as far as `io` says

  ghost function Next(s: Log, e: Event): (s': Log)
    requires WriterHasMessage(s)
    ensures WriterHasMessage(s')
  {
    match e
    case Task(io) => TaskStep(s, io)
    case LogEvent(text, reading, junk) => CreateLogEntry(s, text, reading, junk)
    case DumpLog => s.(startReadback := true)
    case DeleteLog => s.(startDelete := true)
    case PowerCut(io) => Reset(TaskStep(s, io))
  }

  ghost function Run(s: Log, es: seq<Event>): (s': Log)
    requires WriterHasMessage(s)
    ensures WriterHasMessage(s')
    decreases |es|
  {
    if es == [] then s else Next(Run(s, es[..|es| - 1]), es[|es| - 1])
  }

  lemma NoEvents(s: Log)
    requires WriterHasMessage(s)
    ensures Run(s, []) == s
  {
  }

  // ---------- The log the state stands for ----------

  /** The bytes of a slot that a log write covers. */
  ghost function Slots(store: Store): (slots: seq<seq<byte>>)
    ensures |slots| == SLOTS
  {
    seq(SLOTS, i requires 0 <= i < SLOTS => store[i][..MAX_LOG_MESSAGE_SIZE])
  }

  /** Both indices name slots, and they meet only in the empty log that start-up creates. */
  ghost predicate Sound(cb: ControlBlock) {
    InRange(SLOTS, BlockWindow(cb)) && (cb.oldest == cb.nextFree ==> cb.oldest == 0)
  }

  ghost function LogOf(store: Store, cb: ControlBlock): seq<seq<byte>>
    requires Sound(cb)
  {
    Contents(Slots(store), BlockWindow(cb))
  }

  /** The log a restart would find. */
  ghost function Durable(store: Store): seq<seq<byte>>
    requires Sound(Recover(store))
  {
    LogOf(store, Recover(store))
  }

  /** The most entries the ring keeps. */
  const CAPACITY := SLOTS - 1

  lemma BlockRoundTrip(cb: ControlBlock, page: Page)
    ensures Decode(Overwrite(page, Encode(cb))) == cb
  {
    JoinWord(cb.magic);
    JoinWord(cb.entries);
    JoinWord(cb.oldest);
    JoinWord(cb.nextFree);
  }

  /** The low byte of each word comes first, and the fields in this order. */
  lemma BlockBytes(cb: ControlBlock)
    ensures forall i: nat :: i < 4 ==>
              Encode(cb)[2 * i] as int + 256 * Encode(cb)[2 * i + 1] as int == [cb.magic, cb.entries, cb.oldest, cb.nextFree][i] as int
  {
    JoinWord(cb.magic);
    JoinWord(cb.entries);
    JoinWord(cb.oldest);
    JoinWord(cb.nextFree);
  }

  lemma FreeIsSlot(cb: ControlBlock)
    requires Sound(cb)
    ensures cb.nextFree < LAST_PAGE
  {
  }

  /** Whatever the block was, its indices name slots after one append. */
  lemma AdvancedIsSound(cb: ControlBlock)
    ensures Sound(Advanced(cb)) && Advanced(cb).magic == cb.magic
  {
  }

  lemma AdvancedWindow(cb: ControlBlock)
    requires InRange(SLOTS, BlockWindow(cb))
    ensures BlockWindow(Advanced(cb)) == Advance(SLOTS, BlockWindow(cb))
    ensures Advanced(cb).nextFree != cb.nextFree
  {
  }

  /** The field updates of the write step are one step of the ring. */
  lemma AdvancedIsAdvance(cb: ControlBlock)
    requires Sound(cb)
    ensures Sound(Advanced(cb))
    ensures BlockWindow(Advanced(cb)) == Advance(SLOTS, BlockWindow(cb))
    ensures BlockWindow(Advanced(cb)) != BlockWindow(cb)
  {
    hide Advanced, Advance, Count, SlotAt;
    AdvancedWindow(cb);
    AdvanceCount(SLOTS, BlockWindow(cb));
  }

  /** The two indices meet in the empty log and nowhere else. */
  lemma IndicesMeetIffEmpty(store: Store, cb: ControlBlock)
    requires Sound(cb)
    ensures LogOf(store, cb) == [] <==> cb.oldest == cb.nextFree
    ensures |LogOf(store, cb)| <= CAPACITY
  {
    ContentsAt(Slots(store), BlockWindow(cb));
  }

  /** A page that is not one of the log slots does not show in the log. */
  lemma ControlPageIsNoSlot(store: Store, page: Page)
    ensures Slots(store[LAST_PAGE := page]) == Slots(store)
  {
  }

  lemma WholeBlock(store: Store, cb: ControlBlock)
    requires cb.magic == CONTROL_BLOCK_MAGIC
    ensures Recover(WithBlock(store, cb, CONTROL_SIZE)) == cb
  {
    assert Encode(cb)[..CONTROL_SIZE] == Encode(cb);
    BlockRoundTrip(cb, store[LAST_PAGE]);
  }

  lemma BlockOutsideSlots(store: Store, cb: ControlBlock, landed: nat)
    ensures Slots(WithBlock(store, cb, landed)) == Slots(store)
  {
    var store' := WithBlock(store, cb, landed);
    ControlPageIsNoSlot(store, store'[LAST_PAGE]);
    assert store' == store[LAST_PAGE := store'[LAST_PAGE]];
  }

  lemma SlotWrite(store: Store, slot: u16, page: Page)
    requires slot < SLOTS
    ensures Slots(store[slot := page]) == Slots(store)[slot := page[..MAX_LOG_MESSAGE_SIZE]]
    ensures Recover(store[slot := page]) == Recover(store)
  {
  }

  /** Whatever a slot write leaves behind, the log in force does not change. */
  lemma TornSlotIsOutside(store: Store, cb: ControlBlock, page: Page)
    requires Sound(cb)
    ensures LogOf(store[cb.nextFree := page], cb) == LogOf(store, cb)
  {
    SlotWrite(store, cb.nextFree, page);
    FreeSlotIsOutside(Slots(store), BlockWindow(cb), page[..MAX_LOG_MESSAGE_SIZE]);
  }

  /** A completed slot write followed by the index update appends the record. */
  lemma SlotWriteAppends(store: Store, cb: ControlBlock, r: Record)
    requires Sound(cb)
    ensures Sound(Advanced(cb))
    ensures LogOf(store[cb.nextFree := Overwrite(store[cb.nextFree], Payload(r))], Advanced(cb))
         == Newest(LogOf(store, cb) + [Payload(r)], CAPACITY)
  {
    var page := Overwrite(store[cb.nextFree], Payload(r));
    AdvancedIsAdvance(cb);
    SlotWrite(store, cb.nextFree, page);
    assert page[..MAX_LOG_MESSAGE_SIZE] == Payload(r);
    AppendRefines(Slots(store), BlockWindow(cb), Payload(r));
  }
}
