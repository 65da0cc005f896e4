/** The keypad's layout, and its debounce in milliseconds of true time. */
module KeypadLaws {
  import opened Bytes
  import opened Messages
  import opened OsTimer
  import opened Keypad

  /** The input bit of a row of keys, the topmost first. */
  function RowBit(row: nat): Port
    requires row < 4
  {
    if row == 0 then 0x40 else if row == 1 then 0x20 else if row == 2 then 0x10 else 0x08
  }

  /** The three column bits while column `column` is driven low among them. */
  function ColumnBits(column: nat): Port
    requires column < 3
  {
    if column == 0 then 0x03 else if column == 1 then 0x05 else 0x06
  }

  /** The keys in their places: 123, 456, 789, backspace 0 enter. */
  function KeyAt(row: nat, column: nat): u16
    requires row < 4 && column < 3
  {
    if row < 3 then 3 * row + column + 1
    else if column == 0 then 10 else if column == 1 then 0 else 11
  }

  /** Each key is read as its row and its column, and nothing else is read as a key. */
  lemma KeypadLayout(row: nat, column: nat)
    requires row < 4 && column < 3
    ensures KeyOf(RowBit(row) | ColumnBits(column)) == KeyAt(row, column)
  {
    assert (0x40 as Port) | 0x03 == 0x43 && (0x40 as Port) | 0x05 == 0x45 && (0x40 as Port) | 0x06 == 0x46;
    assert (0x20 as Port) | 0x03 == 0x23 && (0x20 as Port) | 0x05 == 0x25 && (0x20 as Port) | 0x06 == 0x26;
    assert (0x10 as Port) | 0x03 == 0x13 && (0x10 as Port) | 0x05 == 0x15 && (0x10 as Port) | 0x06 == 0x16;
    assert (0x08 as Port) | 0x03 == 0x0B && (0x08 as Port) | 0x05 == 0x0D && (0x08 as Port) | 0x06 == 0x0E;
  }

  lemma OnlyKeys(port: Port)
    ensures Mapped(port) ==> exists row: nat, column: nat :: row < 4 && column < 3 && port == RowBit(row) | ColumnBits(column)
  {
    if Mapped(port) {
      var k := KeyOf(port);
      var row := if k == 0 || k >= 10 then 3 else (k - 1) / 3;
      var column := if k == 0 then 1 else if k == 10 then 0 else if k == 11 then 2 else (k - 1) % 3;
      KeypadLayout(row, column);
      SameKey(port, RowBit(row) | ColumnBits(column));
    }
  }

  /** Poll times that do not run backwards, within 2^32 ms. */
  predicate Timely(at: seq<nat>) {
    at != [] && forall i :: 0 <= i < |at| ==> at[0] <= at[i] < at[0] + 0x1_0000_0000
  }

  lemma DebouncedIff(s: State, at: seq<nat>)
    requires Timely(at)
    ensures Debounced(s, at) <==> exists i :: 0 <= i < |at| && at[i] > at[0] + 20
  {
    forall i | 0 <= i < |at|
      ensures Expired(Apply(s.timer, Set(DEBOUNCE), at[0]), at[i]) <==> at[i] > at[0] + 20
    {
      ModDifference(at[i], at[0]);
    }
  }

  /** A key held at one reading and then released: its number goes to the segment display and to the message
      queue, once each, and the display is blanked, if a poll came more than 20 ms after the one that detected
      it; otherwise nothing is posted. Either way the keypad is idle again. */
  lemma PressOf(s: State, row: nat, column: nat, at: seq<nat>, release: Poll)
    requires s.mode.KeyIdle? && row < 4 && column < 3 && Timely(at) && release.reading & 0x78 == 0
    ensures var polls, k := Held(RowBit(row) | ColumnBits(column), at) + [release], KeyAt(row, column);
            && Run(s, polls).mode.KeyIdle?
            && Posts(s, polls) == if exists i :: 0 <= i < |at| && at[i] > at[0] + 20
                                  then [Note(1, Value(k)), Note(2, Value(k)), Note(1, Value(255))] else []
  {
    hide Run, Posts, Debounced;
    KeypadLayout(row, column);
    DebouncedIff(s, at);
    OnePressOneKey(s, RowBit(row) | ColumnBits(column), at, release);
  }
}
