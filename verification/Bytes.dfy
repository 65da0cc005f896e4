/** Machine words and byte buffers as the firmware sees them. */
module Bytes {

  type byte = b: int | 0 <= b < 256
  type u16 = w: int | 0 <= w < 65536

  function Low(w: u16): byte { w % 256 }

  function High(w: u16): byte { w / 256 }

  function Word(low: byte, high: byte): u16 { low + 256 * high }

  lemma SplitWord(low: byte, high: byte)
    ensures Low(Word(low, high)) == low && High(Word(low, high)) == high
  {
  }

  lemma JoinWord(w: u16)
    ensures Word(Low(w), High(w)) == w
  {
  }

  /** `++x` on a 16-bit unsigned variable. */
  function Next16(w: u16): u16 { (w + 1) % 65536 }

  /** The C string held in a buffer: everything before the first NUL, or the
      whole buffer when it is not terminated. */
  function CString(buffer: seq<byte>): (s: seq<byte>)
    ensures 0 !in s
    ensures |s| <= |buffer| && s == buffer[..|s|]
    ensures |s| < |buffer| ==> buffer[|s|] == 0
  {
    if buffer == [] || buffer[0] == 0 then []
    else
      var rest := CString(buffer[1..]);
      assert forall i :: 0 <= i < |rest| ==> rest[i] == buffer[i + 1];
      [buffer[0]] + rest
  }

  /** A NUL-free text that is followed by a NUL is exactly what is read back. */
  lemma CStringTerminated(text: seq<byte>, rest: seq<byte>)
    requires 0 !in text
    ensures CString(text + [0] + rest) == text
  {
    var buffer := text + [0] + rest;
    assert buffer[|text|] == 0;
    assert forall i :: 0 <= i < |text| ==> buffer[i] == text[i] && buffer[i] in text;
  }

  /** `Overwrite(old, data)`: the first bytes of `old` replaced by `data`. */
  function Overwrite(prior: seq<byte>, data: seq<byte>): (r: seq<byte>)
    requires |data| <= |prior|
    ensures |r| == |prior|
  {
    data + prior[|data|..]
  }
}
