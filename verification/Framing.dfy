/** What travels from transport client to transport server: for every file a header line, its data, and a line
    "END". The server's parser is specified one byte at a time; a byte is modelled as a char of any value. */
module Framing {
  import opened Options
  import opened Text

  /** A file of one blob, as sent by a client. */
  datatype Frame = Frame(source: string, minId: int, majId: int, data: seq<char>)

  /** TR_SERVER_BUFFER_SIZE and TR_BUFFER_SIZE */
  const SERVER_BUFFER_SIZE := 5000
  const CLIENT_BUFFER_SIZE := 2500

  /** The longest unfinished line the server keeps. */
  const MAX_LINE := SERVER_BUFFER_SIZE - 1

  // The client's side.

  /** "File %s %d %d %d" */
  function HeaderLine(f: Frame): string {
    "File " + f.source + NumbersPart(f)
  }

  function NumbersPart(f: Frame): string {
    " " + PrintInt(f.minId) + (" " + PrintInt(f.majId) + (" " + PrintInt(|f.data|)))
  }

  /** The header line as snprintf leaves it in the client's buffer, one place of which is for the NUL. */
  function Header(f: Frame): seq<char> {
    var line := HeaderLine(f) + ['\n'];
    if |line| < CLIENT_BUFFER_SIZE then line else line[..CLIENT_BUFFER_SIZE - 1]
  }

  function Bytes(f: Frame): seq<char> {
    Header(f) + f.data + "END\n"
  }

  function Stream(fs: seq<Frame>): seq<char> {
    if fs == [] then [] else Bytes(fs[0]) + Stream(fs[1..])
  }

  lemma {:induction false} StreamAppend(fs: seq<Frame>, f: Frame)
    ensures Stream(fs + [f]) == Stream(fs) + Bytes(f)
  {
    if fs == [] {
      assert Stream([f]) == Bytes(f) + Stream([]);
    } else {
      assert (fs + [f])[1..] == fs[1..] + [f];
      StreamAppend(fs[1..], f);
    }
  }

  // The server's side.

  datatype Phase =
    | Init
    | Begin
    | Body(source: string, minId: int, majId: int, size: nat, got: seq<char>)
    | End(file: Frame)

  /** A connection of the server: `pending` is an unfinished line, `files` are the files handed to the output
      queue, which accepts `room` more before it times out; `ready` tells whether READY can be sent, `timedOut` whether the
      connection was closed because the queue stayed full. */
  datatype Parser = Parser(open: bool, phase: Phase, pending: seq<char>, files: seq<Frame>, room: nat, ready: bool,
                           timedOut: bool)
  {
    predicate Ok() {
      && (phase.Body? ==> |phase.got| < phase.size && pending == [])
      && |pending| < MAX_LINE
      && (forall i :: 0 <= i < |pending| && pending[i] == '\n' ==> '\0' in pending[..i])
    }

    function Close(): Parser {
      this.(open := false, phase := Init, pending := [])
    }
  }

  /** sscanf(line, "File %s %d %d %d") with all four values found. */
  function ParseHeader(line: string): Option<(string, int, int, int)> {
    if |line| < 4 || line[..4] != "File" then None
    else
      match ScanWord(line[4..])
      case None => None
      case Some((source, rest)) => ParseNumbers(source, rest)
  }

  function ParseNumbers(source: string, rest: string): Option<(string, int, int, int)> {
    match ScanInt(rest)
    case None => None
    case Some((minId, rest')) =>
      match ScanInt(rest')
      case None => None
      case Some((majId, rest'')) =>
        match ScanInt(rest'')
        case None => None
        case Some((size, _)) => Some((source, minId, majId, size))
  }

  /** What a complete line does. */
  function Line(p: Parser, line: string): Parser
    requires !p.phase.Body?
  {
    match p.phase
    case Init =>
      if p.ready then p.(phase := Begin) else p.Close()
    case Begin =>
      (match ParseHeader(line)
       case None => p.Close()
       case Some((source, minId, majId, size)) =>
         if size <= 0 then p.Close() else p.(phase := Body(source, minId, majId, size, [])))
    case End(file) =>
      if |line| < 3 || line[..3] != "END" then p.Close()
      else if p.room == 0 then p.Close().(timedOut := true)
      else p.(phase := Begin, files := p.files + [file], room := p.room - 1)
  }

  /** What data of the file being received does. */
  function Fill(p: Parser, data: seq<char>): Parser
    requires p.phase.Body?
  {
    var b := p.phase;
    if |b.got + data| == b.size then p.(phase := End(Frame(b.source, b.minId, b.majId, b.got + data)))
    else p.(phase := b.(got := b.got + data))
  }

  /** One byte. A line that contains a NUL never ends. */
  function Feed(p: Parser, c: char): Parser {
    if !p.open then p
    else if p.phase.Body? then Fill(p, [c])
    else if c == '\n' && '\0' !in p.pending then Line(p.(pending := []), p.pending)
    else if |p.pending| + 1 >= MAX_LINE then p.Close()
    else p.(pending := p.pending + [c])
  }

  function FeedAll(p: Parser, s: seq<char>): Parser
    decreases |s|
  {
    if s == [] then p else FeedAll(Feed(p, s[0]), s[1..])
  }

  /** Parsing does not depend on how the stream is cut. */
  lemma {:induction false} FeedInPieces(p: Parser, s: seq<char>, t: seq<char>)
    ensures FeedAll(p, s + t) == FeedAll(FeedAll(p, s), t)
    decreases |s|
  {
    if s == [] {
      assert s + t == t;
    } else {
      assert (s + t)[1..] == s[1..] + t;
      FeedInPieces(Feed(p, s[0]), s[1..], t);
    }
  }

  lemma {:induction false} FeedClosed(p: Parser, s: seq<char>)
    requires !p.open
    ensures FeedAll(p, s) == p
    decreases |s|
  {
    if s != [] {
      FeedClosed(p, s[1..]);
    }
  }

  /** No newline of s comes before its first NUL: s holds no complete line. */
  predicate Unfinished(s: seq<char>) {
    forall i :: 0 <= i < |s| && s[i] == '\n' ==> '\0' in s[..i]
  }

  lemma {:induction false} FeedUnfinished(p: Parser, s: seq<char>)
    requires p.open && !p.phase.Body? && Unfinished(p.pending + s) && |p.pending| < MAX_LINE
    ensures FeedAll(p, s) == if |p.pending + s| >= MAX_LINE then p.Close() else p.(pending := p.pending + s)
    decreases |s|
  {
    if s == [] {
      assert p.pending + s == p.pending;
    } else {
      var t := p.pending + [s[0]];
      assert p.pending + s == t + s[1..];
      assert (p.pending + s)[..|p.pending|] == p.pending;
      assert (p.pending + s)[|p.pending|] == s[0];
      if |t| >= MAX_LINE {
        FeedClosed(p.Close(), s[1..]);
      } else {
        FeedUnfinished(p.(pending := t), s[1..]);
      }
    }
  }

  lemma {:induction false} FeedLine(p: Parser, line: string)
    requires p.open && !p.phase.Body? && p.pending == [] && |line| < MAX_LINE
    requires '\n' !in line && '\0' !in line
    ensures FeedAll(p, line + ['\n']) == Line(p, line)
  {
    FeedInPieces(p, line, ['\n']);
    assert [] + line == line;
    FeedUnfinished(p, line);
    assert FeedAll(p.(pending := line), ['\n']) == FeedAll(Feed(p.(pending := line), '\n'), ['\n'][1..]);
  }

  lemma {:induction false} FeedBody(p: Parser, data: seq<char>)
    requires p.open && p.phase.Body? && 0 < |data| <= p.phase.size - |p.phase.got|
    ensures FeedAll(p, data) == Fill(p, data)
    decreases |data|
  {
    var q := Feed(p, data[0]);
    assert p.phase.got + data == p.phase.got + [data[0]] + data[1..];
    if |data| > 1 {
      FeedBody(q, data[1..]);
    } else {
      assert [data[0]] == data;
    }
  }

  // Both sides together.

  /** The source name is a C string. */
  predicate Sendable(f: Frame) {
    '\0' !in f.source
  }

  /** The header line is not cut. */
  predicate HeaderFits(f: Frame) {
    |HeaderLine(f)| + 1 < CLIENT_BUFFER_SIZE
  }

  /** What the server can give back unchanged: a source name that is one word in a header that fits, and some data. */
  predicate Receivable(f: Frame) {
    IsWord(f.source) && f.data != [] && HeaderFits(f)
  }

  lemma {:induction false} NumbersReadBack(f: Frame)
    ensures ParseNumbers(f.source, NumbersPart(f)) == Some((f.source, f.minId, f.majId, |f.data|))
  {
    hide ScanInt, PrintInt;
    var size := " " + PrintInt(|f.data|);
    assert size == " " + PrintInt(|f.data|) + "";
    ScanSpacedInt(f.minId, " " + PrintInt(f.majId) + size);
    ScanSpacedInt(f.majId, size);
    ScanSpacedInt(|f.data|, "");
    assert NumbersPart(f) == " " + PrintInt(f.minId) + (" " + PrintInt(f.majId) + size);
  }

  /** The header line is understood exactly for source names that are one word. */
  lemma {:induction false} HeaderReadBack(f: Frame)
    ensures ParseHeader(HeaderLine(f)) == Some((f.source, f.minId, f.majId, |f.data|)) <==> IsWord(f.source)
  {
    var line := HeaderLine(f);
    assert line[..4] == "File" && line[4..] == " " + f.source + NumbersPart(f);
    if IsWord(f.source) {
      assert NumbersPart(f)[0] == ' ';
      ScanWritten(f.source, NumbersPart(f));
      NumbersReadBack(f);
    } else {
      ScannedIsWord(line[4..]);
    }
  }

  lemma {:induction false} PrintedIsPlain(n: nat)
    ensures '\n' !in PrintNat(n) && '\0' !in PrintNat(n)
  {
  }

  lemma HeaderIsOneLine(f: Frame)
    requires Sendable(f) && IsWord(f.source)
    ensures '\n' !in HeaderLine(f) && '\0' !in HeaderLine(f)
    ensures HeaderFits(f) ==> |HeaderLine(f)| < MAX_LINE && Header(f) == HeaderLine(f) + ['\n']
  {
    PrintedIsPlain(if f.minId < 0 then -f.minId else f.minId);
    PrintedIsPlain(if f.majId < 0 then -f.majId else f.majId);
    PrintedIsPlain(|f.data|);
  }

  /** One file, whatever bytes its data holds. */
  lemma {:induction false} FrameReceived(p: Parser, f: Frame)
    requires p.open && p.phase == Begin && p.pending == []
    requires Sendable(f) && Receivable(f)
    ensures FeedAll(p, Bytes(f)) ==
            if p.room > 0 then p.(files := p.files + [f], room := p.room - 1) else p.Close().(timedOut := true)
  {
    hide FeedAll, ParseHeader, HeaderLine, IsWord, Header;
    var header, end := HeaderLine(f) + ['\n'], "END" + ['\n'];
    HeaderIsOneLine(f);
    HeaderReadBack(f);
    assert Bytes(f) == header + (f.data + end);
    FeedInPieces(p, header, f.data + end);
    FeedLine(p, HeaderLine(f));
    var q := p.(phase := Body(f.source, f.minId, f.majId, |f.data|, []));
    FeedInPieces(q, f.data, end);
    assert [] + f.data == f.data;
    FeedBody(q, f.data);
    FeedLine(p.(phase := End(f)), "END");
  }

  lemma {:induction false} FilesOnlyGrow(p: Parser, s: seq<char>)
    ensures p.files <= FeedAll(p, s).files
    decreases |s|
  {
    if s != [] {
      FilesOnlyGrow(Feed(p, s[0]), s[1..]);
    }
  }

  /** A client's stream makes the server queue the client's files in order, as many as the queue takes. */
  lemma {:induction false} StreamReceived(p: Parser, fs: seq<Frame>)
    requires p.open && p.phase == Begin && p.pending == []
    requires forall f :: f in fs ==> Sendable(f) && Receivable(f)
    ensures FeedAll(p, Stream(fs)).files == p.files + fs[..if p.room < |fs| then p.room else |fs|]
    ensures p.room >= |fs| ==> FeedAll(p, Stream(fs)) == p.(files := p.files + fs, room := p.room - |fs|)
    ensures p.room < |fs| ==> !FeedAll(p, Stream(fs)).open && FeedAll(p, Stream(fs)).timedOut
    decreases |fs|
  {
    hide Sendable, Receivable, Bytes, FeedAll;
    if fs == [] {
      NothingFed(p);
      assert p.files + [] == p.files;
    } else {
      FeedInPieces(p, Bytes(fs[0]), Stream(fs[1..]));
      FrameReceived(p, fs[0]);
      if p.room > 0 {
        var q := p.(files := p.files + [fs[0]], room := p.room - 1);
        StreamReceived(q, fs[1..]);
        FirstOf(p.files, fs, if p.room < |fs| then p.room else |fs|);
        FirstOf(p.files, fs, |fs|);
      } else {
        FeedClosed(p.Close().(timedOut := true), Stream(fs[1..]));
        assert p.files + fs[..0] == p.files;
      }
    }
  }

  /** A connection from its start: any first line makes the server ready for files when READY can be sent, and then it queues
      the files of the stream up to its room; otherwise the connection is closed with nothing queued. */
  lemma HandshakeThenStream(line: string, fs: seq<Frame>, room: nat, ready: bool)
    requires '\n' !in line && '\0' !in line && |line| < MAX_LINE
    requires forall f :: f in fs ==> Sendable(f) && Receivable(f)
    ensures var p := FeedAll(Parser(true, Init, [], [], room, ready, false), line + "\n" + Stream(fs));
            && p.files == (if !ready then [] else fs[..if room < |fs| then room else |fs|])
            && p.open == (ready && |fs| <= room)
            && p.timedOut == (ready && |fs| > room)
  {
    hide FeedAll, Feed, Sendable, Receivable, Stream, ParseHeader;
    var p := Parser(true, Init, [], [], room, ready, false);
    FeedInPieces(p, line + "\n", Stream(fs));
    FeedLine(p, line);
    if ready {
      var q := p.(phase := Begin);
      StreamReceived(q, fs);
      assert [] + fs == fs && [] + fs[..if room < |fs| then room else |fs|] == fs[..if room < |fs| then room else |fs|];
    } else {
      FeedClosed(p.Close(), Stream(fs));
    }
  }

  /** A line that is no header where one is expected, or no end line behind the data of a file, closes the connection:
      neither that file nor anything behind the line is queued. So does a header without data. */
  lemma BadLineCloses(p: Parser, line: string, rest: seq<char>)
    requires p.open && p.pending == [] && '\n' !in line && '\0' !in line && |line| < MAX_LINE
    requires || (p.phase.Begin? && !("File" <= line))
             || (p.phase.End? && !("END" <= line))
             || (p.phase.Begin? && exists f: Frame :: f.data == [] && IsWord(f.source) && line == HeaderLine(f))
    ensures var q := FeedAll(p, line + "\n" + rest); !q.open && q.files == p.files && q.timedOut == p.timedOut
  {
    hide FeedAll, ScanWord, HeaderLine, IsWord, ParseNumbers;
    FeedInPieces(p, line + "\n", rest);
    FeedLine(p, line);
    if p.phase.Begin? && "File" <= line {
      var f: Frame :| f.data == [] && IsWord(f.source) && line == HeaderLine(f);
      HeaderReadBack(f);
    }
    FeedClosed(p.Close(), rest);
  }

  lemma NothingFed(p: Parser)
    ensures FeedAll(p, []) == p
  {
  }

  lemma FirstOf(done: seq<Frame>, fs: seq<Frame>, n: nat)
    requires 0 < n <= |fs|
    ensures (done + [fs[0]]) + fs[1..][..n - 1] == done + fs[..n]
    ensures n == |fs| ==> (done + [fs[0]]) + fs[1..] == done + fs
  {
  }

  /** Cutting the stream anywhere, a disconnection for instance, makes the server queue the first files of it. */
  lemma {:induction false} CutStreamReceived(p: Parser, fs: seq<Frame>, s: seq<char>) returns (n: nat)
    requires p.open && p.phase == Begin && p.pending == []
    requires forall f :: f in fs ==> Sendable(f) && Receivable(f)
    requires s <= Stream(fs)
    ensures n <= |fs| && FeedAll(p, s).files == p.files + fs[..n]
  {
    var rest := Stream(fs)[|s|..];
    assert Stream(fs) == s + rest;
    StreamReceived(p, fs);
    FilesOnlyGrow(p, s);
    FeedInPieces(p, s, rest);
    FilesOnlyGrow(FeedAll(p, s), rest);
    n := |FeedAll(p, s).files| - |p.files|;
  }

  predicate WordsOnly(p: Parser, from: nat) {
    && (p.phase.Body? ==> IsWord(p.phase.source) && p.phase.size > 0)
    && (p.phase.End? ==> IsWord(p.phase.file.source) && p.phase.file.data != [])
    && from <= |p.files|
    && forall i :: from <= i < |p.files| ==> IsWord(p.files[i].source) && p.files[i].data != []
  }

  lemma {:induction false} FeedKeepsWords(p: Parser, s: seq<char>, from: nat)
    requires WordsOnly(p, from)
    ensures WordsOnly(FeedAll(p, s), from)
    decreases |s|
  {
    if s != [] {
      LineKeepsWords(p.(pending := []), p.pending, from);
      FeedKeepsWords(Feed(p, s[0]), s[1..], from);
    }
  }

  lemma LineKeepsWords(p: Parser, line: string, from: nat)
    requires WordsOnly(p, from)
    ensures !p.phase.Body? ==> WordsOnly(Line(p, line), from)
  {
    if |line| >= 4 {
      ScannedIsWord(line[4..]);
    }
  }

  /** n bytes were spent since a line of at least h bytes was begun: a file takes that line, its data and an end line. */
  predicate Spent(p: Parser, from: nat, h: nat, n: nat) {
    && from <= |p.files|
    && if |p.files| > from then n >= h + 1 + |p.files[from].data| + 4
       else if !p.open then true
       else
         match p.phase
         case Init => false
         case Begin => n >= h
         case Body(_, _, _, size, got) => n >= h + 1 + |got| && p.pending == []
         case End(file) => n >= h + 1 + |file.data| + |p.pending|
  }

  lemma FeedSpends(p: Parser, c: char, from: nat, h: nat, n: nat)
    requires Spent(p, from, h, n)
    ensures Spent(Feed(p, c), from, h, n + 1)
  {
    hide ParseHeader;
  }

  lemma {:induction false} AllSpent(p: Parser, s: seq<char>, from: nat, h: nat, n: nat)
    requires Spent(p, from, h, n)
    ensures Spent(FeedAll(p, s), from, h, n + |s|)
    decreases |s|
  {
    hide Spent, Feed;
    if s != [] {
      FeedSpends(p, s[0], from, h, n);
      AllSpent(Feed(p, s[0]), s[1..], from, h, n + 1);
    }
  }

  /** A header that was cut has lost its newline, so that the bytes behind it are too few for the file. */
  lemma {:induction false} CutHeaderFails(p: Parser, f: Frame)
    requires p.open && p.phase == Begin && p.pending == [] && Sendable(f) && IsWord(f.source) && !HeaderFits(f)
    ensures FeedAll(p, Bytes(f)).files != p.files + [f]
  {
    hide FeedAll, HeaderLine, IsWord, Spent;
    HeaderIsOneLine(f);
    var h := Header(f);
    assert h == HeaderLine(f)[..CLIENT_BUFFER_SIZE - 1];
    assert forall c :: c in h ==> c in HeaderLine(f);
    assert [] + h == h;
    FeedUnfinished(p, h);
    var q := p.(pending := h);
    assert Spent(q, |p.files|, |h|, |h|) by {
      BeginSpent(q, |h|);
    }
    assert Bytes(f) == h + (f.data + "END\n");
    FeedInPieces(p, h, f.data + "END\n");
    AllSpent(q, f.data + "END\n", |p.files|, |h|, |h|);
    SpentOn(FeedAll(q, f.data + "END\n"), p.files, f, |h|, |h| + |f.data| + 4);
  }

  lemma BeginSpent(p: Parser, n: nat)
    requires p.open && p.phase == Begin
    ensures Spent(p, |p.files|, n, n)
  {
  }

  lemma SpentOn(p: Parser, files: seq<Frame>, f: Frame, h: nat, n: nat)
    requires Spent(p, |files|, h, n) && n < h + 1 + |f.data| + 4
    ensures p.files != files + [f]
  {
    assert (files + [f])[|files|] == f;
  }

  /** A file is received unchanged if and only if its source name is one word, it has data, and its header line fits in
      the client's buffer. */
  lemma {:induction false} ReceivedIffReceivable(p: Parser, f: Frame)
    requires p.open && p.phase == Begin && p.pending == [] && p.room > 0 && Sendable(f)
    ensures FeedAll(p, Bytes(f)).files == p.files + [f] <==> Receivable(f)
  {
    hide FeedAll, Bytes, IsWord, HeaderFits;
    if Receivable(f) {
      FrameReceived(p, f);
    } else if IsWord(f.source) && f.data != [] {
      CutHeaderFails(p, f);
    } else {
      FeedKeepsWords(p, Bytes(f), |p.files|);
      assert (p.files + [f])[|p.files|] == f;
    }
  }
}
