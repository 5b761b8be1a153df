/** TR_server_connection_read of src/transport_server.c: the incremental parser of one connection, working in a
    fixed buffer. Each call is proved to do what feeding the received bytes one by one would do. */
module ServerConnection {
  import opened Options
  import opened Text
  import opened Framing

  /** The first data of a file. */
  lemma BodyStarts(p: Parser, header: (string, int, int, int), data: seq<char>)
    requires p.open && header.3 > 0 && p.phase == Body(header.0, header.1, header.2, header.3, []) && |data| <= header.3
    ensures FeedAll(p, data) ==
            p.(phase := if |data| == header.3 then End(Frame(header.0, header.1, header.2, data))
                        else Body(header.0, header.1, header.2, header.3, data))
  {
    hide FeedAll, Feed;
    assert [] + data == data;
    if data == [] {
      NothingFed(p);
    } else {
      FeedBody(p, data);
    }
  }

  datatype State = StateInit | WaitingFileBegin | ReceivingFile | WaitingFileEnd

  class Connection {
    const buffer: array<char>
    var bufferStart: nat
    var socketOpen: bool
    var state: State

    // The file being received.
    var source: string
    var minId: int
    var majId: int
    var value: array<char>
    var bytesReceived: nat

    // The output queue of the server, how many files it still takes, and whether READY can be sent.
    var queue: seq<Frame>
    var room: nat
    var ready: bool

    /** The connection was closed because the output queue stayed full. */
    ghost var timedOut: bool

    ghost function Repr(): set<object>
      reads this
    {
      {this, buffer, value}
    }

    ghost predicate Shape()
      reads this
    {
      buffer.Length == SERVER_BUFFER_SIZE && buffer != value
    }

    /** The phase of the specification the fields stand for. */
    ghost function PhaseOf(): Phase
      reads this, value
    {
      match state
      case StateInit => Init
      case WaitingFileBegin => Begin
      case ReceivingFile =>
        Body(source, minId, majId, value.Length, if bytesReceived <= value.Length then value[..bytesReceived] else [])
      case WaitingFileEnd => End(Frame(source, minId, majId, value[..]))
    }

    /** The connection as a parser whose unfinished line is `pending`. */
    ghost function With(pending: seq<char>): Parser
      reads this, value
    {
      if socketOpen then Parser(true, PhaseOf(), pending, queue, room, ready, timedOut)
      else Parser(false, Init, [], queue, room, ready, timedOut)
    }

    /** Nothing is left in the line buffer while file data is received. */
    ghost predicate Valid()
      reads this, buffer, value
    {
      && Shape()
      && bufferStart <= MAX_LINE
      && (socketOpen ==> !timedOut && bufferStart < MAX_LINE && Unfinished(buffer[..bufferStart]))
      && (socketOpen && state.ReceivingFile? ==> bufferStart == 0 && bytesReceived < value.Length)
    }

    ghost function Abs(): Parser
      requires Valid()
      reads this, buffer, value
    {
      With(buffer[..bufferStart])
    }

    /** A slot taken by a new client. */
    constructor (room: nat, ready: bool)
      ensures Valid() && Abs() == Parser(true, Init, [], [], room, ready, false)
    {
      buffer := new char[SERVER_BUFFER_SIZE](_ => '\0');
      value := new char[0];
      bufferStart, bytesReceived, socketOpen, state := 0, 0, true, StateInit;
      source, minId, majId := "", -1, -1;
      queue := [];
      this.room, this.ready, timedOut := room, ready, false;
    }

    /** How much the next read asks the socket for. */
    function MaxRead(): int
      reads this
    {
      if state.ReceivingFile? then value.Length - bytesReceived else SERVER_BUFFER_SIZE - bufferStart - 1
    }

    /** TR_server_connection_close: the file being received, if any, is dropped. */
    method Close()
      modifies this`socketOpen
      ensures !socketOpen
    {
      socketOpen := false;
    }

    /** strchr(&buffer[from], '\n'), given the NUL at position `end`. */
    method FindNewline(from: nat, end: nat) returns (pos: Option<nat>)
      requires from <= end < buffer.Length && buffer[end] == '\0'
      ensures pos.None? ==> Unfinished(buffer[from..end])
      ensures pos.Some? ==> from <= pos.value < end && buffer[pos.value] == '\n'
      ensures pos.Some? ==> '\n' !in buffer[from..pos.value] && '\0' !in buffer[from..pos.value]
    {
      var i := from;
      while buffer[i] != '\n' && buffer[i] != '\0'
        invariant from <= i <= end
        invariant forall k :: from <= k < i ==> buffer[k] != '\n' && buffer[k] != '\0'
        decreases end - i
      {
        i := i + 1;
      }
      if buffer[i] == '\n' {
        pos := Some(i);
      } else {
        pos := None;
        forall j | 0 <= j < end - from && buffer[from..end][j] == '\n' ensures '\0' in buffer[from..end][..j] {
          assert buffer[from + j] == '\n' && i < from + j;
          assert buffer[from..end][..j][i - from] == '\0';
        }
      }
    }

    /** What a complete line, already cut out of the buffer, does; after a header the bytes that follow it in the
        buffer go to the file at once. Returns the position reached, and -1 if the output queue timed out. */
    method HandleLine(line: string, endLine: nat, endBuffer: nat) returns (next: nat, rc: int)
      requires Shape() && socketOpen && !timedOut && !state.ReceivingFile? && endLine <= endBuffer < buffer.Length
      modifies this`socketOpen, this`state, this`source, this`minId, this`majId, this`value, this`bytesReceived
      modifies this`queue, this`room, this`timedOut
      ensures Shape() && endLine <= next <= endBuffer
      ensures With([]) == FeedAll(Line(old(With([])), line), buffer[endLine..next])
      ensures socketOpen && state.ReceivingFile? ==> next == endBuffer && bytesReceived < value.Length
      ensures rc == (if timedOut then -1 else 0) && (timedOut ==> !socketOpen)
    {
      next, rc := endLine, 0;
      match state
      case WaitingFileBegin =>
        var header := ParseHeader(line);
        if header.None? || header.value.3 <= 0 {
          Close();
        } else {
          next := StartFile(header.value, endLine, endBuffer);
        }
      case WaitingFileEnd =>
        if |line| < 3 || line[..3] != "END" {
          Close();
        } else if room == 0 {
          Close();
          rc, timedOut := -1, true;
        } else {
          queue := queue + [Frame(source, minId, majId, value[..])];
          room := room - 1;
          state := WaitingFileBegin;
        }
      case StateInit =>
        if !ready {
          Close();
        } else {
          state := WaitingFileBegin;
        }
    }

    /** memcpy from the line buffer to the file. */
    method CopyOut(data: array<char>, start: nat, size: nat)
      requires data != buffer && size <= data.Length && start + size <= buffer.Length
      modifies data
      ensures data[..size] == buffer[start..start + size]
    {
      forall i | 0 <= i < size {
        data[i] := buffer[start + i];
      }
    }

    method StartFile(header: (string, int, int, int), endLine: nat, endBuffer: nat) returns (next: nat)
      requires Shape() && socketOpen && state.WaitingFileBegin? && endLine <= endBuffer < buffer.Length && header.3 > 0
      modifies this`state, this`source, this`minId, this`majId, this`value, this`bytesReceived
      ensures Shape() && endLine <= next <= endBuffer
      ensures With([]) == FeedAll(old(With([])).(phase := Body(header.0, header.1, header.2, header.3, [])), buffer[endLine..next])
      ensures state.ReceivingFile? ==> next == endBuffer && bytesReceived < value.Length
    {
      hide FeedAll, Unfinished;
      var data := new char[header.3](_ => '\0');
      source, minId, majId, value := header.0, header.1, header.2, data;
      state := ReceivingFile;
      bytesReceived := 0;
      assert value[..0] == [];
      next := TakeBuffered(endLine, endBuffer);
    }

    /** The bytes behind the header line in the buffer are the first ones of the file. */
    method TakeBuffered(endLine: nat, endBuffer: nat) returns (next: nat)
      requires Shape() && socketOpen && state.ReceivingFile? && endLine <= endBuffer < buffer.Length
      requires bytesReceived == 0 < value.Length
      modifies this`state, this`bytesReceived, value
      ensures endLine <= next <= endBuffer
      ensures With([]) == FeedAll(old(With([])), buffer[endLine..next])
      ensures state.ReceivingFile? ==> next == endBuffer && bytesReceived < value.Length
    {
      hide FeedAll, Unfinished;
      next := endLine;
      ghost var before, header := With([]), (source, minId, majId, value.Length);
      assert value[..0] == [];
      var size := endBuffer - endLine;
      if size > 0 {
        if size >= value.Length {
          size := value.Length;
          state := WaitingFileEnd;
        }
        CopyOut(value, endLine, size);
        bytesReceived, next := size, endLine + size;
        ghost var copied := buffer[endLine..next];
        BodyStarts(before, header, copied);
        assert copied == value[..size];
        assert size == value.Length ==> value[..] == value[..size];
      } else {
        BodyStarts(before, header, buffer[endLine..next]);
      }
    }

    /** The parsing loop: handles the lines in buffer[..endBuffer] and moves what is left to the front. */
    method ParseBuffer(endBuffer: nat) returns (rc: int)
      requires Shape() && socketOpen && !timedOut && !state.ReceivingFile? && bufferStart == endBuffer
      requires 0 < endBuffer <= MAX_LINE && buffer[endBuffer] == '\0'
      modifies this, buffer
      ensures Valid() && Abs() == FeedAll(old(With([])), old(buffer[..endBuffer]))
      ensures rc == (if timedOut then -1 else 0)
    {
      hide FeedAll, Line, Unfinished;
      var parsePtr := 0;
      rc := 0;
      ghost var goal := FeedAll(With([]), buffer[..endBuffer]);
      while socketOpen
        invariant Shape() && parsePtr <= endBuffer && bufferStart == endBuffer && buffer[endBuffer] == '\0'
        invariant goal == FeedAll(With([]), buffer[parsePtr..endBuffer])
        invariant socketOpen && state.ReceivingFile? ==> 0 < parsePtr == endBuffer && bytesReceived < value.Length
        invariant rc == (if timedOut then -1 else 0) && (timedOut ==> !socketOpen)
        decreases socketOpen, endBuffer - parsePtr
      {
        var newline := FindNewline(parsePtr, endBuffer);
        if newline.None? {
          KeepRest(parsePtr, endBuffer);
          return;
        }
        var endLine := newline.value;
        ghost var p, rest := With([]), buffer[parsePtr..endBuffer];
        var line := buffer[parsePtr..endLine];
        buffer[endLine] := '\0';
        endLine := endLine + 1;
        parsePtr, rc := HandleLine(line, endLine, endBuffer);
        ghost var more, tail := buffer[endLine..parsePtr], buffer[parsePtr..endBuffer];
        assert rest == (line + ['\n']) + (more + tail);
        FeedInPieces(p, line + ['\n'], more + tail);
        FeedLine(p, line);
        FeedInPieces(Line(p, line), more, tail);
      }
      FeedClosed(With([]), buffer[parsePtr..endBuffer]);
    }

    /** No complete line is left: the rest becomes the unfinished line, unless it fills the whole buffer. */
    method KeepRest(parsePtr: nat, endBuffer: nat)
      requires Shape() && socketOpen && !timedOut && parsePtr <= endBuffer <= MAX_LINE && 0 < endBuffer && bufferStart == endBuffer
      requires Unfinished(buffer[parsePtr..endBuffer])
      requires state.ReceivingFile? ==> 0 < parsePtr == endBuffer && bytesReceived < value.Length
      modifies this`socketOpen, this`bufferStart, buffer
      ensures Valid() && Abs() == old(FeedAll(With([]), buffer[parsePtr..endBuffer]))
    {
      hide FeedAll, Unfinished;
      ghost var p, rest := With([]), buffer[parsePtr..endBuffer];
      if parsePtr == endBuffer {
        NothingFed(p);
        assert rest == [] == buffer[..0];
      } else {
        assert [] + rest == rest;
        FeedUnfinished(p, rest);
      }
      if parsePtr != 0 {
        if parsePtr < endBuffer {
          forall i | 0 <= i < endBuffer - parsePtr {
            buffer[i] := buffer[parsePtr + i];
          }
          bufferStart := endBuffer - parsePtr;
        } else {
          bufferStart := 0;
        }
      } else if bufferStart >= SERVER_BUFFER_SIZE - 1 {
        Close();
      }
      assert socketOpen ==> buffer[..bufferStart] == rest;
    }

    /** Data of the file being received is read to its place. */
    method ReceiveData(data: seq<char>)
      requires Valid() && socketOpen && state.ReceivingFile? && 0 < |data| <= MaxRead()
      modifies this`bytesReceived, this`state, value
      ensures Valid() && Abs() == FeedAll(old(Abs()), data)
    {
      hide FeedAll;
      ghost var p, got := Abs(), value[..bytesReceived];
      FeedBody(p, data);
      forall i | 0 <= i < |data| {
        value[bytesReceived + i] := data[i];
      }
      bytesReceived := bytesReceived + |data|;
      assert value[..bytesReceived] == got + data;
      if bytesReceived == value.Length {
        state := WaitingFileEnd;
        assert value[..] == got + data;
      }
    }

    /** Other bytes join the unfinished line in the buffer, which is then parsed. */
    method AppendAndParse(data: seq<char>) returns (rc: int)
      requires Valid() && socketOpen && !state.ReceivingFile? && 0 < |data| <= MaxRead()
      modifies this, buffer
      ensures Valid() && Abs() == FeedAll(old(Abs()), data)
      ensures rc == (if timedOut then -1 else 0)
    {
      hide FeedAll, Line, Unfinished;
      ghost var p, line := With([]), buffer[..bufferStart];
      assert [] + line == line;
      FeedUnfinished(p, line);
      FeedInPieces(p, line, data);
      var endBuffer := bufferStart + |data|;
      forall i | 0 <= i < |data| {
        buffer[bufferStart + i] := data[i];
      }
      buffer[endBuffer] := '\0';
      assert buffer[..endBuffer] == line + data;
      bufferStart := endBuffer;
      assert With([]) == p;
      rc := ParseBuffer(endBuffer);
    }

    /** TR_server_connection_read, given the bytes that read() delivers; none stands for end of file or an error.
        However the stream is cut into reads, the result is that of parsing it byte by byte. */
    method ConnectionRead(data: seq<char>) returns (rc: int)
      requires Valid() && socketOpen && |data| <= MaxRead()
      modifies Repr()
      ensures Valid() && Abs() == if data == [] then old(Abs()).Close() else FeedAll(old(Abs()), data)
      ensures rc == if Abs().timedOut then -1 else 0
    {
      if state.ReceivingFile? {
        if data != [] {
          ReceiveData(data);
          return 0;
        }
      } else {
        if data != [] {
          rc := AppendAndParse(data);
          return;
        }
      }
      Close();
      rc := 0;
    }
  }
}
