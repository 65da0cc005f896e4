/** The page view of the EEPROM: 1024 pages of 64 bytes over the byte-addressed chip. */
module E2Driver {
  import opened Bytes
  import opened Iic

  const PAGE_SIZE := 64
  const LAST_PAGE := 65535 / PAGE_SIZE // 1023

  type Page = p: seq<byte> | |p| == PAGE_SIZE ghost witness seq(PAGE_SIZE, _ => 0)
  ghost const ZERO_PAGE: Page := seq(PAGE_SIZE, _ => 0)
  type Store = s: seq<Page> | |s| == LAST_PAGE + 1 ghost witness seq<Page>(LAST_PAGE + 1, _ => ZERO_PAGE)

  /** The pages a memory of 65536 bytes holds. */
  ghost function Pages(mem: seq<byte>): (s: Store)
    requires |mem| == MEMORY
  {
    seq(LAST_PAGE + 1, p requires 0 <= p <= LAST_PAGE => mem[PAGE_SIZE * p..PAGE_SIZE * p + PAGE_SIZE])
  }

  /** The two address bytes the driver sends for page `page`. */
  function PageAddress(page: u16): seq<byte>
    requires page <= LAST_PAGE
  {
    [High(page * PAGE_SIZE), Low(page * PAGE_SIZE)]
  }

  /** The address bytes leave the pointer on the first byte of the page, and memory alone. */
  lemma Addressed(c: Chip, page: u16)
    requires IsChip(c) && page <= LAST_PAGE
    ensures AcceptAll(Select(c), PageAddress(page)) == Chip(c.mem, page * PAGE_SIZE, Data)
  {
    var high, low := High(page * PAGE_SIZE), Low(page * PAGE_SIZE);
    AcceptTwo(Select(c), high, low);
    SplitWord(Low(c.pointer), high);
    JoinWord(page * PAGE_SIZE);
  }

  lemma AcceptTwo(c: Chip, a: byte, b: byte)
    requires IsChip(c)
    ensures AcceptAll(c, [a, b]) == Accept(Accept(c, a), b)
  {
    assert [a, b][..1] == [a] && [a][..0] == [];
    assert AcceptAll(c, [a]) == Accept(AcceptAll(c, []), a);
  }

  /** A write transfer that starts on a page boundary stores its data bytes there, in order,
      and nothing else: the chip's pointer never wraps inside a transfer of at most 64 bytes. */
  lemma {:induction false} Stored(c: Chip, page: u16, data: seq<byte>)
    requires IsChip(c) && page <= LAST_PAGE && |data| <= PAGE_SIZE
    ensures var c' := AcceptAll(Select(c), PageAddress(page) + data);
            && c'.phase == Data
            && c'.mem == c.mem[..page * PAGE_SIZE] + data + c.mem[page * PAGE_SIZE + |data|..]
            && (|data| < PAGE_SIZE ==> c'.pointer == page * PAGE_SIZE + |data|)
    decreases |data|
  {
    var bytes := PageAddress(page) + data;
    if data == [] {
      assert bytes == PageAddress(page);
      Addressed(c, page);
      assert c.mem == c.mem[..page * PAGE_SIZE] + data + c.mem[page * PAGE_SIZE + |data|..];
    } else {
      var most := data[..|data| - 1];
      assert bytes[..|bytes| - 1] == PageAddress(page) + most;
      Stored(c, page, most);
      StoreOne(AcceptAll(Select(c), PageAddress(page) + most), c.mem, page, most, data[|data| - 1]);
      assert most + [data[|data| - 1]] == data;
    }
  }

  lemma StoreOne(c: Chip, mem: seq<byte>, page: u16, most: seq<byte>, b: byte)
    requires IsChip(c) && |mem| == MEMORY && page <= LAST_PAGE && |most| < PAGE_SIZE
    requires c.phase == Data && c.pointer == page * PAGE_SIZE + |most|
    requires c.mem == mem[..page * PAGE_SIZE] + most + mem[page * PAGE_SIZE + |most|..]
    ensures Accept(c, b).mem == mem[..page * PAGE_SIZE] + (most + [b]) + mem[page * PAGE_SIZE + |most| + 1..]
    ensures Accept(c, b).phase == Data
    ensures |most| + 1 < PAGE_SIZE ==> Accept(c, b).pointer == page * PAGE_SIZE + |most| + 1
  {
  }

  /** Storing at a page boundary is overwriting the head of that page, in the page view. */
  lemma PagesAfterWrite(mem: seq<byte>, mem': seq<byte>, page: u16, data: seq<byte>)
    requires |mem| == MEMORY && page <= LAST_PAGE && |data| <= PAGE_SIZE
    requires mem' == mem[..page * PAGE_SIZE] + data + mem[page * PAGE_SIZE + |data|..]
    ensures |mem'| == MEMORY
    ensures Pages(mem') == Pages(mem)[page := Overwrite(Pages(mem)[page], data)]
  {
    forall p: nat | p <= LAST_PAGE && p != page
      ensures Pages(mem')[p] == Pages(mem)[p]
    {
      OtherPage(mem, mem', page, data, p);
    }
    ThisPage(mem, mem', page, data);
  }

  lemma ThisPage(mem: seq<byte>, mem': seq<byte>, page: u16, data: seq<byte>)
    requires |mem| == MEMORY && page <= LAST_PAGE && |data| <= PAGE_SIZE
    requires mem' == mem[..page * PAGE_SIZE] + data + mem[page * PAGE_SIZE + |data|..]
    ensures |mem'| == MEMORY && Pages(mem')[page] == Overwrite(Pages(mem)[page], data)
  {
    var left, right := Pages(mem')[page], Overwrite(Pages(mem)[page], data);
    forall i | 0 <= i < PAGE_SIZE
      ensures left[i] == right[i]
    {
      assert left[i] == mem'[PAGE_SIZE * page + i];
    }
  }

  lemma OtherPage(mem: seq<byte>, mem': seq<byte>, page: u16, data: seq<byte>, p: nat)
    requires |mem| == MEMORY && page <= LAST_PAGE && |data| <= PAGE_SIZE && p <= LAST_PAGE && p != page
    requires mem' == mem[..page * PAGE_SIZE] + data + mem[page * PAGE_SIZE + |data|..]
    ensures |mem'| == MEMORY && Pages(mem')[p] == Pages(mem)[p]
  {
    if p < page {
      assert PAGE_SIZE * p + PAGE_SIZE <= PAGE_SIZE * page;
    } else {
      assert PAGE_SIZE * page + PAGE_SIZE <= PAGE_SIZE * p;
    }
  }

  /** Any part of a write transfer, as the page view sees it. The first two bytes taken are
      the address; the rest is a prefix of the data. */
  lemma TransferOnPages(c: Chip, page: u16, data: seq<byte>, taken: nat)
    requires IsChip(c) && page <= LAST_PAGE && |data| <= PAGE_SIZE && taken <= |data| + 2
    ensures var landed := if taken < 2 then 0 else taken - 2;
            var c' := AcceptAll(Select(c), (PageAddress(page) + data)[..taken]);
            Pages(c'.mem) == Pages(c.mem)[page := Overwrite(Pages(c.mem)[page], data[..landed])]
  {
    var bytes := PageAddress(page) + data;
    if taken < 2 {
      assert Overwrite(Pages(c.mem)[page], data[..0]) == Pages(c.mem)[page];
      assert bytes[..0] == [];
      assert bytes[..1][..0] == [];
    } else {
      var landed := data[..taken - 2];
      assert bytes[..taken] == PageAddress(page) + landed;
      Stored(c, page, landed);
      PagesAfterWrite(c.mem, AcceptAll(Select(c), bytes[..taken]).mem, page, landed);
    }
  }

  /** A successful write of a page, as the page view sees it. */
  datatype Write = Write(page: u16, data: seq<byte>)

  ghost predicate InBounds(w: Write) { w.page <= LAST_PAGE && 0 < |w.data| <= PAGE_SIZE }

  ghost function Written(s: Store, ws: seq<Write>): Store
    requires forall w <- ws :: InBounds(w)
    decreases |ws|
  {
    if ws == [] then s
    else
      var most, w := ws[..|ws| - 1], ws[|ws| - 1];
      var t := Written(s, most);
      assert InBounds(w);
      t[w.page := Overwrite(t[w.page], w.data)]
  }

  /** What was last written to a page is what a read of that many bytes finds there, whatever is
      written to other pages afterwards. */
  lemma {:induction false} ReadsLastWrite(s: Store, w: Write, later: seq<Write>)
    requires InBounds(w) && forall v <- later :: InBounds(v) && v.page != w.page
    ensures forall v <- [w] + later :: InBounds(v)
    ensures Written(s, [w] + later)[w.page][..|w.data|] == w.data
    decreases |later|
  {
    if later == [] {
      assert ([w] + later)[..0] == [];
    } else {
      var most := later[..|later| - 1];
      ReadsLastWrite(s, w, most);
      assert ([w] + later)[..|later|] == [w] + most;
      assert later[|later| - 1] in later;
    }
  }

  /** The requests that never reach the bus. */
  predicate Refused(page: u16, length: nat) { length == 0 || page > LAST_PAGE || length > PAGE_SIZE }

  /** The part of `length` data bytes that a write transfer gets onto its page: the chip takes the two
      address bytes first. */
  function Landed(answers: Answers, length: nat): (k: nat)
    ensures k <= length
  {
    var taken := Taken(answers, length + 2);
    if taken < 2 then 0 else taken - 2
  }

  /** How many bytes a read gets. */
  function Read(address: Answers, data: Answers, length: nat): (k: nat)
    ensures k <= length
  {
    if AllAnswered(address, 2) then Taken(data, length) else 0
  }

  class E2 {
    const bus: Driver

    constructor (bus: Driver)
      ensures this.bus == bus
    {
      this.bus := bus;
    }

    ghost function Contents(): Store
      requires IsChip(bus.chip)
      reads bus
    {
      Pages(bus.chip.mem)
    }

    /** Writes the first `length` bytes of `data` at the head of page `page`. What the chip takes of the
        transfer lands there. */
    method MemoryWrite(page: u16, data: seq<byte>, length: byte, answers: Answers) returns (rc: int)
      requires IsChip(bus.chip)
      requires length <= |data|
      modifies bus
      ensures IsChip(bus.chip)
      ensures Refused(page, length) ==> rc == -1 && bus.chip == old(bus.chip)
      ensures !Refused(page, length) ==>
                && rc == (if !answers.start then -1 else if AllAnswered(answers, length + 2) then 0 else -2)
                && Landed(answers, length) <= length
                && Contents() == old(Contents())[page := Overwrite(old(Contents())[page], data[..Landed(answers, length)])]
    {
      if length == 0 || page > LAST_PAGE || length > PAGE_SIZE {
        return -1;
      }
      var payload := data[..length];
      var load := PageAddress(page) + payload;
      rc := bus.IICWrite(load, answers);
      TransferOnPages(old(bus.chip), page, payload, Taken(answers, length + 2));
      assert payload[..Landed(answers, length)] == data[..Landed(answers, length)];
      if !answers.start {
        assert data[..0] == [];
        assert Overwrite(old(Contents())[page], []) == old(Contents())[page];
      }
    }

    /** Reads the first `length` bytes of page `page`, as far as the bus answers. The memory is never changed. */
    method MemoryRead(page: u16, output: array<byte>, length: byte, address: Answers, data: Answers) returns (rc: int)
      requires IsChip(bus.chip)
      requires length <= output.Length
      modifies bus, output
      ensures IsChip(bus.chip)
      ensures bus.chip.mem == old(bus.chip.mem)
      ensures Refused(page, length) ==> rc == -1 && output[..] == old(output[..])
      ensures !Refused(page, length) ==>
                && rc == (if AllAnswered(address, 2) && AllAnswered(data, length) then 0 else -1)
                && Read(address, data, length) <= length
                && output[..] == old(Contents())[page][..Read(address, data, length)] + old(output[..])[Read(address, data, length)..]
    {
      if length == 0 || page > LAST_PAGE || length > PAGE_SIZE {
        return -1;
      }
      ghost var chip0 := bus.chip;
      AllTaken(address, 2);
      rc := bus.IICWrite(PageAddress(page), address);
      ghost var taken := Taken(address, 2);
      assert bus.chip.mem == chip0.mem && (rc == 0 ==> bus.chip.pointer == page * PAGE_SIZE) by {
        ReadAddressing(chip0, page, taken);
      }
      if rc != 0 {
        return -1;
      }
      ghost var c := bus.chip;
      ghost var k := Taken(data, length);
      rc := bus.IICRead(output, length, data);
      ReadsPage(c, page, k);
      assert output[..] == output[..k] + output[k..];
      if rc != 0 {
        return -1;
      }
    }
  }

  /** Reading on from the first byte of a page yields the head of that page. */
  lemma ReadsPage(c: Chip, page: u16, n: nat)
    requires IsChip(c) && page <= LAST_PAGE && c.pointer == page * PAGE_SIZE && n <= PAGE_SIZE
    ensures Sequential(c, n) == Pages(c.mem)[page][..n]
  {
  }

  lemma ReadAddressing(c: Chip, page: u16, taken: nat)
    requires IsChip(c) && page <= LAST_PAGE && taken <= 2
    ensures AcceptAll(Select(c), PageAddress(page)[..taken]).mem == c.mem
    ensures taken == 2 ==> AcceptAll(Select(c), PageAddress(page)[..taken]).pointer == page * PAGE_SIZE
  {
    var bytes := PageAddress(page);
    if taken == 2 {
      assert bytes[..2] == bytes;
      Addressed(c, page);
    } else if taken == 1 {
      assert bytes[..1][..0] == [];
    }
  }
}
