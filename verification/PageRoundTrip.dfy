/** What a logged message looks like when its page is read back. */
module PageRoundTrip {
  import opened Bytes
  import opened E2Driver
  import opened LogModel

  /** The part of the message that a page write covers: 50 bytes. */
  const KEPT := MAX_LOG_MESSAGE_SIZE - DATE_SIZE

  /** The date and the text that the serial dump takes from a page. */
  function ReadDate(page: Page): seq<byte> { page[..DATE_SIZE] }

  function ReadText(page: Page): seq<byte> { CString(page[DATE_SIZE..]) }

  function WrittenPage(stale: Page, r: Record): Page {
    Overwrite(stale, Payload(r))
  }

  /** The message field of a written page: 50 bytes from the record, 7 stale ones. */
  lemma MessageField(stale: Page, r: Record)
    ensures WrittenPage(stale, r)[DATE_SIZE..] == r.message[..KEPT] + stale[MAX_LOG_MESSAGE_SIZE..]
    ensures ReadDate(WrittenPage(stale, r)) == r.date
  {
    assert Payload(r) == r.date + r.message[..KEPT];
  }

  lemma ShortTextSurvives(stale: Page, junk: MessageBuffer, date: Date, text: seq<byte>)
    requires |text| < KEPT && 0 !in text
    ensures ReadText(WrittenPage(stale, Record(date, StrLcpy(junk, text)))) == text
    ensures ReadDate(WrittenPage(stale, Record(date, StrLcpy(junk, text)))) == date
  {
    var r := Record(date, StrLcpy(junk, text));
    MessageField(stale, r);
    var rest := r.message[|text| + 1..KEPT] + stale[MAX_LOG_MESSAGE_SIZE..];
    assert WrittenPage(stale, r)[DATE_SIZE..] == text + [0] + rest;
    CStringTerminated(text, rest);
  }

  /** Stale bytes that never end the string. */
  ghost function Ones(): Page { seq(PAGE_SIZE, _ => 1) }

  ghost function Twos(): Page { seq(PAGE_SIZE, _ => 2) }

  lemma LongTextBreaks(junk: MessageBuffer, date: Date, text: seq<byte>)
    requires KEPT <= |text| < MAX_LOG_MESSAGE_SIZE && 0 !in text
    ensures exists stale: Page :: ReadText(WrittenPage(stale, Record(date, StrLcpy(junk, text)))) != text
  {
    var r := Record(date, StrLcpy(junk, text));
    var a, b := ReadText(WrittenPage(Ones(), r)), ReadText(WrittenPage(Twos(), r));
    MessageField(Ones(), r);
    MessageField(Twos(), r);
    Unterminated(r.message[..KEPT], Ones()[MAX_LOG_MESSAGE_SIZE..]);
    Unterminated(r.message[..KEPT], Twos()[MAX_LOG_MESSAGE_SIZE..]);
    assert a[KEPT] == 1 && b[KEPT] == 2;
  }

  lemma Unterminated(s: seq<byte>, t: seq<byte>)
    requires 0 !in s && 0 !in t
    ensures CString(s + t) == s + t
  {
  }

  /** Of the messages that `CreateLogEntry` accepts, exactly those shorter than 50 characters
      read back unchanged whatever the slot and the heap held before. */
  lemma RoundTripIff(junk: MessageBuffer, date: Date, text: seq<byte>)
    requires |text| < MAX_LOG_MESSAGE_SIZE && 0 !in text
    ensures (forall stale: Page :: ReadText(WrittenPage(stale, Record(date, StrLcpy(junk, text)))) == text)
       <==> |text| < KEPT
  {
    if |text| < KEPT {
      forall stale: Page
        ensures ReadText(WrittenPage(stale, Record(date, StrLcpy(junk, text)))) == text
      {
        ShortTextSurvives(stale, junk, date, text);
      }
    } else {
      LongTextBreaks(junk, date, text);
    }
  }
}
