/** The serial EEPROM on the two-wire bus, and the polled bus driver in front of it.

    The chip is byte addressed. A write transfer sends a two-byte address and then
    data bytes, each stored at an address pointer that steps on by one and wraps
    inside the chip's own 128-byte write page. A read transfer starts at the pointer
    left by the last address and runs on sequentially. */
module Iic {
  import opened Bytes

  const MEMORY := 65536
  const WRITE_PAGE := 128

  datatype Phase = Idle | AddressHigh | AddressLow | Data

  datatype Chip = Chip(mem: seq<byte>, pointer: u16, phase: Phase)

  ghost predicate IsChip(c: Chip) { |c.mem| == MEMORY }

  /** The chip acknowledged its own address with the write bit. */
  function Select(c: Chip): Chip { c.(phase := AddressHigh) }

  function Stop(c: Chip): Chip { c.(phase := Idle) }

  /** One data byte acknowledged by the chip. */
  function Accept(c: Chip, b: byte): (c': Chip)
    requires IsChip(c)
    ensures IsChip(c')
  {
    match c.phase
    case Idle => c
    case AddressHigh => c.(pointer := Word(Low(c.pointer), b), phase := AddressLow)
    case AddressLow => c.(pointer := Word(b, High(c.pointer)), phase := Data)
    case Data =>
      var next := if (c.pointer + 1) % WRITE_PAGE == 0 then c.pointer + 1 - WRITE_PAGE else c.pointer + 1;
      c.(mem := c.mem[c.pointer := b], pointer := next)
  }

  function AcceptAll(c: Chip, bytes: seq<byte>): (c': Chip)
    requires IsChip(c)
    ensures IsChip(c')
  {
    if bytes == [] then c else Accept(AcceptAll(c, bytes[..|bytes| - 1]), bytes[|bytes| - 1])
  }

  /** What `n` bytes read in sequence from the pointer yield. */
  function Sequential(c: Chip, n: nat): seq<byte>
    requires IsChip(c)
  {
    seq(n, i requires 0 <= i => c.mem[(c.pointer + i) % MEMORY])
  }

  function Skip(c: Chip, n: nat): Chip { c.(pointer := (c.pointer + n) % MEMORY) }

  /** How the devices on the bus answer one transfer: the start condition, the address, and each data byte. */
  datatype Answers = Answers(start: bool, address: bool, data: nat -> bool)

  /** How many of `n` data bytes are answered before the first one that is not. */
  function Answered(a: Answers, n: nat): (k: nat)
    ensures k <= n
    ensures forall i :: 0 <= i < k ==> a.data(i)
    ensures k < n ==> !a.data(k)
  {
    if n == 0 then 0
    else
      var k := Answered(a, n - 1);
      if k == n - 1 && a.data(n - 1) then n else k
  }

  /** The data bytes that a transfer of `n` gets across. */
  function Taken(a: Answers, n: nat): (k: nat)
    ensures k <= n
  {
    if a.start && a.address then Answered(a, n) else 0
  }

  predicate AllAnswered(a: Answers, n: nat) {
    a.start && a.address && forall i :: 0 <= i < n ==> a.data(i)
  }

  lemma AllTaken(a: Answers, n: nat)
    ensures AllAnswered(a, n) ==> Taken(a, n) == n
    ensures Taken(a, n) == n > 0 ==> AllAnswered(a, n)
  {
  }

  lemma OneMoreRead(c: Chip, k: nat)
    requires IsChip(c)
    ensures Skip(Skip(c, k), 1) == Skip(c, k + 1) && Skip(c, k).mem == c.mem && IsChip(Skip(c, k + 1))
    ensures Sequential(c, k + 1) == Sequential(c, k) + [c.mem[Skip(c, k).pointer]]
  {
  }

  lemma NothingRead(c: Chip)
    requires IsChip(c)
    ensures Skip(c, 0) == c && Sequential(c, 0) == []
  {
  }

  class Driver {
    var chip: Chip

    constructor (initial: Chip)
      ensures chip == initial
    {
      chip := initial;
    }

    /** One write transfer. The chip takes the data bytes up to the first that is not answered. */
    method IICWrite(bytes: seq<byte>, answers: Answers) returns (rc: int)
      requires IsChip(chip)
      modifies this
      ensures IsChip(chip)
      ensures rc == if !answers.start then -1 else if AllAnswered(answers, |bytes|) then 0 else -2
      ensures chip == if !answers.start then old(chip)
                      else Stop(AcceptAll(Select(old(chip)), bytes[..Taken(answers, |bytes|)]))
    {
      rc := 0;
      if answers.start {
        if answers.address {
          chip := Select(chip);
          var idx := 0;
          while idx < |bytes|
            invariant 0 <= idx <= |bytes|
            invariant IsChip(chip)
            invariant chip == AcceptAll(Select(old(chip)), bytes[..idx])
            invariant rc == 0 && forall i :: 0 <= i < idx ==> answers.data(i)
          {
            if !answers.data(idx) {
              rc := -2;
              break;
            }
            assert bytes[..idx + 1][..idx] == bytes[..idx];
            chip := Accept(chip, bytes[idx]);
            idx := idx + 1;
          }
          AnsweredIs(answers, |bytes|, idx);
        } else {
          rc := -2;
        }
        chip := Stop(chip);
      } else {
        rc := -1;
      }
    }

    /** One read transfer of `n` bytes into `buffer`. It never changes the memory. */
    method IICRead(buffer: array<byte>, n: nat, answers: Answers) returns (rc: int)
      requires IsChip(chip)
      requires n <= buffer.Length
      modifies this, buffer
      ensures IsChip(chip)
      ensures rc == if !answers.start then -1 else if AllAnswered(answers, n) then 0 else -2
      ensures chip == if !answers.start then old(chip) else Stop(Skip(old(chip), Taken(answers, n)))
      ensures buffer[..Taken(answers, n)] == Sequential(old(chip), Taken(answers, n))
      ensures buffer[Taken(answers, n)..] == old(buffer[Taken(answers, n)..])
    {
      hide Skip, Sequential, Answered;
      NothingRead(chip);
      rc := 0;
      if answers.start {
        if answers.address {
          var idx := 0;
          while idx < n
            invariant 0 <= idx <= n
            invariant IsChip(chip) && chip == Skip(old(chip), idx)
            invariant buffer[..idx] == Sequential(old(chip), idx)
            invariant buffer[idx..] == old(buffer[idx..])
            invariant rc == 0 && forall i :: 0 <= i < idx ==> answers.data(i)
          {
            if answers.data(idx) {
              OneMoreRead(old(chip), idx);
              buffer[idx] := chip.mem[chip.pointer];
              chip := Skip(chip, 1);
            } else {
              rc := -2;
              break;
            }
            idx := idx + 1;
          }
          AnsweredIs(answers, n, idx);
        } else {
          rc := -2;
        }
        chip := Stop(chip);
      } else {
        rc := -1;
      }
    }
  }

  lemma AnsweredIs(a: Answers, n: nat, k: nat)
    requires k <= n && (forall i :: 0 <= i < k ==> a.data(i)) && (k < n ==> !a.data(k))
    ensures Answered(a, n) == k
  {
  }
}
