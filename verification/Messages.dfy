/** The application's messages: what a task or an event handler hands to the kernel's queue. */
module Messages {
  import opened Bytes

  const MSG_ID_UPDATE_7SEG := 1
  const MSG_ID_KEY_PRESSED := 2
  const MSG_ID_INIT_COMPLETE := 4
  const MSG_ID_NEW_ACTUAL_RPS := 5
  const MSG_ID_NEW_RPS_ENTERED := 7
  const MSG_ID_DATALOG_LOGEVENT := 8
  const MSG_ID_DATALOG_DELETELOG := 9
  const MSG_ID_DATALOG_DUMPLOG := 10

  /** A context is a 16-bit number squeezed into a pointer, or the address of the one static text
      buffer that log messages are formatted in. Every context belongs to its poster. */
  datatype Context = Value(w: u16) | LogBuffer

  datatype Note = Note(id: nat, context: Context)
}
