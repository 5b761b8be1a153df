/** The acknowledgement lines that the server sends (src/transport_server.c) and the client reads
    (src/transport_client.c). */
module AckLines {
  import opened Options
  import opened Text

  /** "ACK %d %d", without its newline. */
  function AckLine(minId: int, majId: int): string {
    "ACK " + PrintInt(minId) + " " + PrintInt(majId)
  }

  /** The acknowledgement of a command line, if it is one. */
  function ParseAck(line: string): Option<(int, int)> {
    if !("ACK " <= line) then None
    else
      match ScanInt(line[4..])
      case None => None
      case Some((minId, rest)) =>
        match ScanInt(rest)
        case None => None
        case Some((majId, _)) => Some((minId, majId))
  }

  /** The last acknowledgement among the lines is the one that counts; others change nothing. */
  function LastAck(lines: seq<string>, start: (int, int)): (int, int) {
    if lines == [] then start
    else
      match ParseAck(lines[|lines| - 1])
      case Some(ack) => ack
      case None => LastAck(lines[..|lines| - 1], start)
  }

  /** The client reads back what the server acknowledged. */
  lemma AckReadBack(minId: int, majId: int)
    ensures ParseAck(AckLine(minId, majId)) == Some((minId, majId))
  {
    hide PrintInt, ScanInt;
    var rest := " " + PrintInt(majId);
    ScanPrintedInt(minId, rest);
    ScanSpacedInt(majId, "");
    assert rest + "" == rest;
    assert AckLine(minId, majId) == "ACK " + (PrintInt(minId) + rest);
    assert AckLine(minId, majId)[4..] == PrintInt(minId) + rest;
  }
}
