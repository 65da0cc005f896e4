/** The logger as the firmware runs it: a linked list of pages in RAM, a control block, and a state
    machine over the EEPROM driver. Each method is tied to the value model in LogModel. */
module LogTask {
  import opened Bytes
  import opened Iic
  import opened E2Driver
  import opened LogModel
  import opened Messages

  /** A page on the heap. */
  class LogPage {
    const record: Record
    var nextPage: LogPage?

    constructor (record: Record)
      ensures this.record == record && nextPage == null
    {
      this.record := record;
      nextPage := null;
    }
  }

  class LogTask {
    var systemState: Mode
    var controlBlock: ControlBlock
    var pHead: LogPage?
    var pEnd: LogPage?
    var nextToRead: u16
    var messageQueueSize: byte
    var failures: byte
    var startReadback: bool
    var startDelete: bool
    const e2: E2
    var dumped: seq<Page>            // pages the readback handed to the serial port
    ghost var chain: seq<LogPage>    // the nodes from pHead to pEnd
    ghost var pending: seq<Record>   // what they hold
    ghost var owned: set<LogPage> // obtained with new and not yet deleted

    /** The list is acyclic, ends in pEnd, owns exactly its nodes, and is as long as its counter says. */
    ghost predicate ListValid()
      reads `pHead, `pEnd, `messageQueueSize, `chain, `pending, `owned, chain
    {
      && (forall i, j :: 0 <= i < j < |chain| ==> chain[i] != chain[j])
      && (forall i :: 0 <= i < |chain| - 1 ==> chain[i].nextPage == chain[i + 1])
      && (if chain == [] then pHead == null && pEnd == null
          else pHead == chain[0] && pEnd == chain[|chain| - 1] && pEnd.nextPage == null)
      && |pending| == |chain| && (forall i :: 0 <= i < |chain| ==> chain[i].record == pending[i])
      && messageQueueSize == |chain| <= MAX_MESSAGE_QUEUE_SIZE
      && (forall n <- owned :: n in chain) && (forall n <- chain :: n in owned)
    }

    ghost predicate Valid()
      reads this, chain, e2.bus
    {
      IsChip(e2.bus.chip) && ListValid() && (systemState.WriteLogMsg? ==> pending != [])
    }

    ghost function State(): (s: Log)
      requires Valid()
      reads this, chain, e2.bus
      ensures WriterHasMessage(s)
    {
      Log(systemState, controlBlock, pending, nextToRead, failures, startReadback, startDelete,
          e2.Contents(), dumped)
    }

    constructor (e2: E2)
      requires IsChip(e2.bus.chip)
      ensures this.e2 == e2 && Valid()
      ensures State() == Log(Init, ZERO_BLOCK, [], 0, 0, false, false, e2.Contents(), [])
    {
      this.e2 := e2;
      systemState := Init;
      controlBlock := ZERO_BLOCK;
      pHead, pEnd := null, null;
      nextToRead, messageQueueSize, failures := 0, 0, 0;
      startReadback, startDelete := false, false;
      dumped := [];
      chain, pending, owned := [], [], {};
    }

    lemma EmptyIff()
      requires ListValid()
      ensures pHead != null && messageQueueSize != 0 <==> pending != []
    {
    }

    lemma HeadHolds()
      requires ListValid() && pending != []
      ensures pHead != null && pHead.record == pending[0]
    {
    }

    /** One call of the task loop, as the bus answers its transfers. */
    method TaskLoop(bus: Bus)
      requires Valid()
      modifies this, e2.bus
      ensures Valid()
      ensures State() == TaskStep(old(State()), IoOf(old(State()), bus))
      ensures owned <= old(owned)
    {
      hide ListValid, InitStep, WriteLogStep, WriteCtrlStep, ReadbackStep, IoOf;
      EmptyIff();
      if failures > 5 {
        systemState := IicFail;
        return;
      }
      match systemState {
        case Init => LoadControlBlock(bus);
        case ReadyRw =>
          if startDelete {
            controlBlock := FRESH;
            systemState := WriteCtrlBlock;
          } else if startReadback {
            startReadback := false;
            nextToRead := controlBlock.oldest;
            systemState := ReadbackLog;
          } else if pHead != null && messageQueueSize != 0 {
            systemState := WriteLogMsg;
          }
        case WriteLogMsg => WriteHead(bus);
        case WriteCtrlBlock => SaveControlBlock(bus);
        case ReadbackLog => ReadNext(bus);
        case IicFail =>
      }
    }

    method LoadControlBlock(bus: Bus)
      requires Valid() && systemState.Init? && failures <= 5
      modifies `controlBlock, `failures, `systemState, e2.bus
      ensures Valid()
      ensures State() == InitStep(old(State()), IoOf(old(State()), bus))
    {
      hide ListValid, E2.Contents;
      var rc := ReadBlock(bus);
      if rc == 0 {
        CheckMagic();
      } else {
        failures := failures + 1;
      }
    }

    method CheckMagic()
      modifies `controlBlock, `failures, `systemState
      ensures controlBlock == if old(controlBlock.magic) == CONTROL_BLOCK_MAGIC then old(controlBlock) else FRESH
      ensures failures == 0 && systemState == ReadyRw
    {
      if controlBlock.magic != CONTROL_BLOCK_MAGIC {
        controlBlock := FRESH;
      }
      failures := 0;
      systemState := ReadyRw;
    }

    /** Reads the last page over the RAM block, as far as the bus answers. */
    method ReadBlock(bus: Bus) returns (rc: int)
      requires IsChip(e2.bus.chip)
      modifies `controlBlock, e2.bus
      ensures IsChip(e2.bus.chip) && e2.Contents() == old(e2.Contents())
      ensures rc == 0 <==> AllAnswered(bus.first, 2) && AllAnswered(bus.second, CONTROL_SIZE)
      ensures rc == 0 ==> controlBlock == Decode(old(e2.Contents())[LAST_PAGE])
      ensures var k := Read(bus.first, bus.second, CONTROL_SIZE);
              controlBlock == Decode(old(e2.Contents())[LAST_PAGE][..k] + Encode(old(controlBlock))[k..])
    {
      var image := Encode(controlBlock);
      var buffer := new byte[CONTROL_SIZE](i requires 0 <= i < CONTROL_SIZE => image[i]);
      assert buffer[..] == image;
      rc := e2.MemoryRead(LAST_PAGE, buffer, CONTROL_SIZE, bus.first, bus.second);
      controlBlock := Decode(buffer[..]);
      AllTaken(bus.second, CONTROL_SIZE);
      WholeRead(old(e2.Contents())[LAST_PAGE], image);
    }

    lemma WholeRead(page: Page, image: seq<byte>)
      requires |image| == CONTROL_SIZE
      ensures Decode(page[..CONTROL_SIZE] + image[CONTROL_SIZE..]) == Decode(page)
    {
    }

    method WriteHead(bus: Bus)
      requires Valid() && systemState.WriteLogMsg? && failures <= 5
      modifies `pHead, `pEnd, `messageQueueSize, `chain, `pending, `owned
      modifies `controlBlock, `failures, `systemState, e2.bus
      ensures Valid()
      ensures State() == WriteLogStep(old(State()), IoOf(old(State()), bus))
      ensures owned <= old(owned)
    {
      hide ListValid, E2.Contents, Payload, Advanced, Landed, Decode, Encode, Overwrite, AllAnswered, Read;
      HeadHolds();
      var rc := WriteRecord(controlBlock.nextFree, pHead.record, bus.first);
      if rc == 0 {
        Written();
      } else {
        failures := failures + 1;
      }
    }

    /** What follows a successful page write. */
    method Written()
      requires ListValid() && pending != []
      modifies `pHead, `pEnd, `messageQueueSize, `chain, `pending, `owned
      modifies `controlBlock, `failures, `systemState
      ensures ListValid()
      ensures pending == old(pending)[1..] && controlBlock == Advanced(old(controlBlock))
      ensures failures == 0 && systemState == WriteCtrlBlock
      ensures owned <= old(owned)
    {
      DeleteHead();
      AdvanceBlock();
      failures := 0;
      systemState := WriteCtrlBlock;
    }

    /** The first 57 bytes of a page record go to the head of slot `slot`. */
    method WriteRecord(slot: u16, record: Record, answers: Answers) returns (rc: int)
      requires IsChip(e2.bus.chip)
      modifies e2.bus
      ensures IsChip(e2.bus.chip)
      ensures rc == 0 <==> slot <= LAST_PAGE && AllAnswered(answers, 2 + MAX_LOG_MESSAGE_SIZE)
      ensures slot > LAST_PAGE ==> e2.Contents() == old(e2.Contents())
      ensures var k := Landed(answers, MAX_LOG_MESSAGE_SIZE);
              && k <= MAX_LOG_MESSAGE_SIZE && (rc == 0 ==> k == MAX_LOG_MESSAGE_SIZE)
              && (slot <= LAST_PAGE ==>
                    e2.Contents() == old(e2.Contents())[slot := Overwrite(old(e2.Contents())[slot], Payload(record)[..k])])
      ensures Payload(record)[..MAX_LOG_MESSAGE_SIZE] == Payload(record)
    {
      var raw := record.date + record.message;
      rc := e2.MemoryWrite(slot, raw, MAX_LOG_MESSAGE_SIZE, answers);
      AllTaken(answers, 2 + MAX_LOG_MESSAGE_SIZE);
      assert raw[..Landed(answers, MAX_LOG_MESSAGE_SIZE)] == Payload(record)[..Landed(answers, MAX_LOG_MESSAGE_SIZE)];
    }

    /** Unlinks the head of the list and gives its page back. */
    method DeleteHead()
      requires ListValid() && pending != []
      modifies `pHead, `pEnd, `messageQueueSize, `chain, `pending, `owned
      ensures ListValid()
      ensures pending == old(pending)[1..]
      ensures old(pHead) in old(owned) && owned == old(owned) - {old(pHead)}
    {
      ghost var toDelete := pHead;
      pHead := pHead.nextPage;
      if pHead == null {
        pEnd := null;
      }
      messageQueueSize := messageQueueSize - 1;
      assert toDelete == chain[0];
      owned := owned - {toDelete};
      chain, pending := chain[1..], pending[1..];
    }

    /** The three field updates that follow a page write. */
    method AdvanceBlock()
      modifies `controlBlock
      ensures controlBlock == Advanced(old(controlBlock))
    {
      if controlBlock.entries < LAST_PAGE {
        controlBlock := controlBlock.(entries := controlBlock.entries + 1);
      }
      controlBlock := controlBlock.(nextFree := Next16(controlBlock.nextFree));
      if controlBlock.nextFree >= LAST_PAGE {
        controlBlock := controlBlock.(nextFree := 0);
      }
      if controlBlock.nextFree == controlBlock.oldest {
        controlBlock := controlBlock.(oldest := Next16(controlBlock.oldest));
      }
      if controlBlock.oldest >= LAST_PAGE {
        controlBlock := controlBlock.(oldest := 0);
      }
    }

    method SaveControlBlock(bus: Bus)
      requires Valid() && systemState.WriteCtrlBlock? && failures <= 5
      modifies `failures, `systemState, e2.bus
      ensures Valid()
      ensures State() == WriteCtrlStep(old(State()), IoOf(old(State()), bus))
    {
      hide ListValid, E2.Contents, Encode, Decode;
      var rc := e2.MemoryWrite(LAST_PAGE, Encode(controlBlock), CONTROL_SIZE, bus.first);
      AllTaken(bus.first, 2 + CONTROL_SIZE);
      if rc != 0 {
        failures := failures + 1;
        return;
      }
      failures := 0;
      systemState := ReadyRw;
    }

    method ReadNext(bus: Bus)
      requires Valid() && systemState.ReadbackLog? && failures <= 5
      modifies `failures, `dumped, `nextToRead, `systemState, e2.bus
      ensures Valid()
      ensures State() == ReadbackStep(old(State()), IoOf(old(State()), bus))
    {
      hide ListValid, E2.Contents, Decode, Encode, Landed, Read;
      var rc, outputPage := ReadPage(nextToRead, bus);
      if rc == 0 {
        Print(outputPage);
      } else {
        failures := failures + 1;
      }
    }

    /** A page goes to the serial port and the cursor moves on; it is compared before it wraps. */
    method Print(outputPage: Page)
      modifies `dumped, `nextToRead, `systemState
      ensures dumped == old(dumped) + [outputPage]
      ensures var next := Next16(old(nextToRead));
              if next == controlBlock.nextFree then nextToRead == next && systemState == ReadyRw
              else nextToRead == (if next >= LAST_PAGE then 0 else next) && systemState == old(systemState)
    {
      dumped := dumped + [outputPage];
      nextToRead := Next16(nextToRead);
      if nextToRead == controlBlock.nextFree {
        systemState := ReadyRw;
      } else if nextToRead >= LAST_PAGE {
        nextToRead := 0;
      }
    }

    method ReadPage(page: u16, bus: Bus) returns (rc: int, output: Page)
      requires IsChip(e2.bus.chip)
      modifies e2.bus
      ensures IsChip(e2.bus.chip) && e2.Contents() == old(e2.Contents())
      ensures rc == 0 <==> page <= LAST_PAGE && AllAnswered(bus.first, 2) && AllAnswered(bus.second, PAGE_SIZE)
      ensures rc == 0 ==> output == old(e2.Contents())[page]
    {
      var buffer := new byte[PAGE_SIZE];
      rc := e2.MemoryRead(page, buffer, PAGE_SIZE, bus.first, bus.second);
      output := buffer[..];
      AllTaken(bus.second, PAGE_SIZE);
      if rc == 0 {
        assert output == old(e2.Contents())[page][..PAGE_SIZE];
      }
    }

    lemma EndIsOwned()
      requires Valid()
      ensures pEnd != null ==> pEnd in owned
    {
    }

    /** Queues a message. `reading` is the answer of the clock chip, `junk` what the fresh page held. */
    method CreateLogEntry(message: seq<byte>, reading: Option<Date>, junk: MessageBuffer) returns (rc: int)
      requires Valid()
      modifies this, pEnd
      ensures Valid()
      ensures State() == LogModel.CreateLogEntry(old(State()), message, reading, junk)
      ensures rc == if Accepts(old(State()), message, reading) then 0 else -1
      ensures old(owned) <= owned && fresh(owned - old(owned))
    {
      if |message| >= MAX_LOG_MESSAGE_SIZE || messageQueueSize >= MAX_MESSAGE_QUEUE_SIZE || reading.None? {
        return -1;
      }
      var newPageEntry := new LogPage(Record(reading.value, StrLcpy(junk, message)));
      Link(newPageEntry);
      return 0;
    }

    method Link(newPageEntry: LogPage)
      requires ListValid() && |pending| < MAX_MESSAGE_QUEUE_SIZE
      requires newPageEntry !in chain && newPageEntry.nextPage == null
      modifies `pHead, `pEnd, `messageQueueSize, `chain, `pending, `owned, pEnd
      ensures ListValid()
      ensures pending == old(pending) + [newPageEntry.record]
      ensures owned == old(owned) + {newPageEntry}
    {
      if pHead == null {
        pHead := newPageEntry;
        pEnd := newPageEntry;
      } else {
        pEnd.nextPage := newPageEntry;
        pEnd := newPageEntry;
      }
      chain, pending := chain + [newPageEntry], pending + [newPageEntry.record];
      owned := owned + {newPageEntry};
      messageQueueSize := messageQueueSize + 1;
    }

    method EventHandler(id: int, text: seq<byte>, reading: Option<Date>, junk: MessageBuffer)
      requires Valid()
      modifies this, pEnd
      ensures Valid()
      ensures State() == Handle(old(State()), id, text, reading, junk)
      ensures old(owned) <= owned && fresh(owned - old(owned))
    {
      if id == MSG_ID_DATALOG_LOGEVENT {
        var _ := CreateLogEntry(text, reading, junk);
      } else if id == MSG_ID_DATALOG_DUMPLOG {
        startReadback := true;
      } else if id == MSG_ID_DATALOG_DELETELOG {
        startDelete := true;
      }
    }
  }

  /** A delivered message, as an event of the value model. */
  ghost function Handle(s: Log, id: int, text: seq<byte>, reading: Option<Date>, junk: MessageBuffer): Log
    requires WriterHasMessage(s)
  {
    if id == MSG_ID_DATALOG_LOGEVENT then Next(s, LogEvent(text, reading, junk))
    else if id == MSG_ID_DATALOG_DUMPLOG then Next(s, DumpLog)
    else if id == MSG_ID_DATALOG_DELETELOG then Next(s, DeleteLog)
    else s
  }
}
