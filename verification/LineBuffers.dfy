/** struct lineBuffer of src/utility.c: a growing buffer to which chunks are added and from which lines are taken. */
module LineBuffers {
  import opened Options
  import opened Sequences
  import opened TextLines

  /** bufferChunkSize and bufferMaxSize */
  const CHUNK_SIZE := 100
  const MAX_SIZE := 200000

  lemma SlicesJoin(before: seq<char>, s: seq<char>, i: nat, n: nat)
    requires i + n <= |s|
    ensures (before + s[..i]) + s[i..][..n] == before + s[..i + n]
  {
  }

  /** The text starts with a complete line without NUL. */
  predicate HasLine(text: seq<char>) {
    Newline(text) < |text| && '\0' !in text[..Newline(text)]
  }

  /** A line ends at n, or a NUL or the end of the text comes first. */
  lemma {:induction false} NewlineIs(text: seq<char>, n: nat)
    requires n <= |text| && '\n' !in text[..n] && '\0' !in text[..n]
    requires n < |text| ==> text[n] == '\n' || text[n] == '\0'
    ensures if n < |text| && text[n] == '\n' then HasLine(text) && Newline(text) == n else !HasLine(text)
  {
    var m := Newline(text);
    assert forall k :: 0 <= k < n ==> text[k] == text[..n][k];
    if n < m {
      assert text[..m][n] == text[n];
    }
  }

  class LineBuffer {
    var content: array?<char>
    var used: nat
    var size: nat

    /** Content is NUL-terminated and has room for its NUL, and for less than two chunks more. */
    ghost predicate Valid()
      reads this, content
    {
      if content == null then used == 0 && size == 0
      else content.Length == size && used < size < used + 2 * CHUNK_SIZE && content[used] == '\0'
    }

    ghost function Text(): seq<char>
      requires Valid()
      reads this, content
    {
      if content == null then [] else content[..used]
    }

    constructor ()
      ensures Valid() && Text() == []
    {
      content, used, size := null, 0, 0;
    }

    /** lineBuffer_allocate: false when the buffer would become too large. */
    method Allocate(more: nat) returns (ok: bool)
      requires Valid() && more > 0
      modifies this
      ensures ok == (more + old(size) <= MAX_SIZE)
      ensures !ok ==> Valid() && content == old(content) && used == old(used) && size == old(size)
      ensures ok ==> content != null && fresh(content) && size == old(size) + more && content.Length == size
      ensures ok ==> used == old(used) && content[..used] == old(Text())
    {
      if more + size > MAX_SIZE {
        return false;
      }
      var larger := new char[size + more](_ => '\0');
      if content != null {
        forall i | 0 <= i < size {
          larger[i] := content[i];
        }
      }
      content := larger;
      size := size + more;
      ok := true;
    }

    /** Makes room for a chunk, if the size limit allows. */
    method EnsureRoom() returns (ok: bool)
      requires Valid()
      modifies this, content
      ensures Valid() && Text() == old(Text()) && (content == old(content) || fresh(content))
      ensures if ok then size - used >= CHUNK_SIZE else size + CHUNK_SIZE > MAX_SIZE
    {
      ok := true;
      if size - used < CHUNK_SIZE {
        ok := Allocate(CHUNK_SIZE);
        if ok {
          content[used] := '\0';
        }
      }
    }

    /** read(): as many of the bytes the socket has ready as fit. */
    method ReadSome(ready: seq<char>) returns (taken: nat)
      requires Valid() && size - used >= CHUNK_SIZE && ready != []
      modifies this`used, content
      ensures Valid() && 0 < taken <= |ready| && Text() == old(Text()) + ready[..taken]
    {
      taken := if |ready| < size - used - 1 then |ready| else size - used - 1;
      forall i | 0 <= i < taken {
        content[used + i] := ready[i];
      }
      used := used + taken;
      content[used] := '\0';
      assert content[..used] == old(Text()) + ready[..taken];
    }

    /** lineBuffer_add: takes what the socket has ready, all of it unless the buffer is full. -1 at end of file. */
    method Add(ready: seq<char>, endOfFile: bool) returns (rc: int, taken: nat)
      requires Valid()
      modifies this, content
      ensures Valid() && taken <= |ready| && Text() == old(Text()) + ready[..taken]
      ensures rc == -1 ==> taken == |ready| && endOfFile
      ensures rc != -1 ==> (taken == |ready| && !endOfFile) || size + CHUNK_SIZE > MAX_SIZE
      ensures content == old(content) || fresh(content)
    {
      taken, rc := 0, 0;
      while taken < |ready| || endOfFile
        invariant Valid() && taken <= |ready| && Text() == old(Text()) + ready[..taken]
        invariant content == old(content) || fresh(content)
        decreases |ready| - taken
      {
        var ok := EnsureRoom();
        if !ok {
          return;
        }
        if taken == |ready| {
          return -1, taken;
        }
        var n := ReadSome(ready[taken..]);
        SlicesJoin(old(Text()), ready, taken, n);
        taken := taken + n;
      }
    }

    /** strchr(content, '\n'), which stops at the first NUL. */
    method FindNewline() returns (n: nat)
      requires Valid() && content != null
      ensures n <= used && '\n' !in Text()[..n] && '\0' !in Text()[..n]
      ensures n < used ==> Text()[n] == '\n' || Text()[n] == '\0'
    {
      n := 0;
      while content[n] != '\n' && content[n] != '\0'
        invariant n <= used && forall k :: 0 <= k < n ==> content[k] != '\n' && content[k] != '\0'
        decreases used - n
      {
        n := n + 1;
      }
    }

    /** lineBuffer_getLine: the first line of the text, if it is complete and no NUL hides its end. */
    method GetLine() returns (line: Option<seq<char>>)
      requires Valid()
      modifies this
      ensures Valid() && (content == old(content) || content == null || fresh(content))
      ensures var text := old(Text());
              if HasLine(text) then line == Some(text[..Newline(text)]) && Text() == text[Newline(text) + 1..]
              else line == None && Text() == text
    {
      hide Newline;
      if used == 0 {
        return None;
      }
      var n := FindNewline();
      ghost var text := Text();
      NewlineIs(text, n);
      if content[n] != '\n' {
        return None;
      }
      line := Some(content[..n]);
      var endPos := n + 1;
      assert text[..n] == content[..n];
      if endPos == used {
        content, used, size := null, 0, 0;
        assert text[n + 1..] == [];
      } else {
        DropFirst(endPos);
      }
    }

    /** The part of lineBuffer_getLine that copies what follows the first line. */
    method DropFirst(endPos: nat)
      requires Valid() && content != null && endPos < used
      modifies this
      ensures Valid() && Text() == old(Text())[endPos..] && (content == null || fresh(content))
    {
      var newbuf := new char[size - endPos];
      forall i | 0 <= i < size - endPos {
        newbuf[i] := content[endPos + i];
      }
      content := newbuf;
      size := size - endPos;
      used := used - endPos;
    }
  }

  /** A user of the buffer either adds a chunk or takes a line. */
  datatype Op = OpAdd(chunk: seq<char>) | OpGet

  function Added(ops: seq<Op>): seq<char> {
    if ops == [] then []
    else (if ops[0].OpAdd? then ops[0].chunk else []) + Added(ops[1..])
  }

  /** The lines taken and the text left. */
  function Taken(text: seq<char>, ops: seq<Op>): (seq<seq<char>>, seq<char>)
    decreases |ops|
  {
    if ops == [] then ([], text)
    else if ops[0].OpAdd? then Taken(text + ops[0].chunk, ops[1..])
    else if !HasLine(text) then Taken(text, ops[1..])
    else
      var (lines, rest) := Taken(text[Newline(text) + 1..], ops[1..]);
      ([text[..Newline(text)]] + lines, rest)
  }

  lemma AddUnfolds(text: seq<char>, ops: seq<Op>)
    requires ops != [] && ops[0].OpAdd?
    ensures Added(ops) == ops[0].chunk + Added(ops[1..])
    ensures Taken(text, ops) == Taken(text + ops[0].chunk, ops[1..])
  {
    hide HasLine, Newline;
  }

  lemma GetUnfolds(text: seq<char>, ops: seq<Op>)
    requires ops != [] && ops[0].OpGet?
    ensures Added(ops) == Added(ops[1..])
    ensures if !HasLine(text) then Taken(text, ops) == Taken(text, ops[1..])
            else
              var (lines, rest) := Taken(text[Newline(text) + 1..], ops[1..]);
              Taken(text, ops) == ([text[..Newline(text)]] + lines, rest)
  {
    hide HasLine, Newline;
    assert [] + Added(ops[1..]) == Added(ops[1..]);
  }

  lemma RunOfNothing(text: seq<char>)
    ensures Taken(text, []) == ([], text) && text + Added([]) == text && [] + Lines(text) == Lines(text)
  {
    assert Added([]) == [];
  }

  /** Under any interleaving, the lines taken and those still in the buffer are, in order, the lines of the whole
      stream, and the unfinished tail is kept. */
  lemma {:induction false} LinesInOrder(text: seq<char>, ops: seq<Op>)
    ensures Taken(text, ops).0 + Lines(Taken(text, ops).1) == Lines(text + Added(ops))
    ensures Tail(Taken(text, ops).1) == Tail(text + Added(ops))
    decreases |ops|
  {
    hide *;
    if ops == [] {
      RunOfNothing(text);
    } else {
      var rest := Added(ops[1..]);
      if ops[0].OpAdd? {
        AddUnfolds(text, ops);
        LinesInOrder(text + ops[0].chunk, ops[1..]);
        assert text + (ops[0].chunk + rest) == text + ops[0].chunk + rest;
      } else {
        GetUnfolds(text, ops);
        if !HasLine(text) {
          LinesInOrder(text, ops[1..]);
        } else {
          LineIsThere(text);
          var left := text[Newline(text) + 1..];
          LinesInOrder(left, ops[1..]);
          FirstLineOfSum(text, rest);
          Associate([text[..Newline(text)]], Taken(left, ops[1..]).0, Lines(Taken(left, ops[1..]).1));
        }
      }
    }
  }

  lemma LineIsThere(text: seq<char>)
    requires HasLine(text)
    ensures Newline(text) < |text|
  {
  }

  /** When no NUL was added and more lines were asked for than there are, every complete line was taken. */
  lemma AllLinesTaken(text: seq<char>, ops: seq<Op>)
    requires '\0' !in text + Added(ops) && !HasLine(Taken(text, ops).1)
    ensures Taken(text, ops).0 == Lines(text + Added(ops)) && Taken(text, ops).1 == Tail(text + Added(ops))
  {
    hide Taken, Lines, Tail, Added, Newline;
    LinesInOrder(text, ops);
    RestHasNoNul(text, ops);
    var rest := Taken(text, ops).1;
    FirstLine(rest);
    assert Newline(rest) == |rest|;
    assert Taken(text, ops).0 + [] == Taken(text, ops).0;
  }

  lemma {:induction false} RestHasNoNul(text: seq<char>, ops: seq<Op>)
    requires '\0' !in text + Added(ops)
    ensures '\0' !in Taken(text, ops).1
    decreases |ops|
  {
    hide Taken, Added, HasLine, Newline;
    if ops == [] {
      RunOfNothing(text);
    } else if ops[0].OpAdd? {
      AddUnfolds(text, ops);
      assert text + (ops[0].chunk + Added(ops[1..])) == text + ops[0].chunk + Added(ops[1..]);
      RestHasNoNul(text + ops[0].chunk, ops[1..]);
    } else {
      GetUnfolds(text, ops);
      if HasLine(text) {
        LineIsThere(text);
        var left := text[Newline(text) + 1..];
        assert forall c :: c in left + Added(ops[1..]) ==> c in text + Added(ops);
        RestHasNoNul(left, ops[1..]);
      } else {
        RestHasNoNul(text, ops[1..]);
      }
    }
  }

  /** One more operation at the end. */
  lemma {:induction false} TakenMore(text: seq<char>, ops: seq<Op>, op: Op)
    ensures var (lines, rest) := Taken(text, ops);
            var (more, left) := Taken(rest, [op]);
            Taken(text, ops + [op]) == (lines + more, left)
    decreases |ops|
  {
    hide Taken, Added, HasLine, Newline;
    if ops == [] {
      RunOfNothing(text);
      assert [] + [op] == [op] && [] + Taken(text, [op]).0 == Taken(text, [op]).0;
    } else {
      var all := ops + [op];
      assert all[0] == ops[0] && all[1..] == ops[1..] + [op];
      if ops[0].OpAdd? {
        AddUnfolds(text, ops);
        AddUnfolds(text, all);
        TakenMore(text + ops[0].chunk, ops[1..], op);
      } else {
        GetUnfolds(text, ops);
        GetUnfolds(text, all);
        if HasLine(text) {
          LineIsThere(text);
          var left := text[Newline(text) + 1..];
          TakenMore(left, ops[1..], op);
          var (lines, rest) := Taken(left, ops[1..]);
          Associate([text[..Newline(text)]], lines, Taken(rest, [op]).0);
        } else {
          TakenMore(text, ops[1..], op);
        }
      }
    }
  }

  lemma TakenOne(text: seq<char>, op: Op)
    ensures Taken(text, [op]) ==
            if op.OpAdd? then ([], text + op.chunk)
            else if HasLine(text) then ([text[..Newline(text)]], text[Newline(text) + 1..])
            else ([], text)
  {
    hide HasLine, Newline;
    assert [op][1..] == [];
    if op.OpGet? && HasLine(text) {
      assert [text[..Newline(text)]] + [] == [text[..Newline(text)]];
    }
  }

  /** The first of the operations, of which the last chunk may be cut. */
  predicate FirstOf(executed: seq<Op>, ops: seq<Op>) {
    var n := |executed|;
    && n <= |ops|
    && (executed == ops[..n]
        || (n > 0 && executed[..n - 1] == ops[..n - 1] && executed[n - 1].OpAdd? && ops[n - 1].OpAdd?
            && executed[n - 1].chunk <= ops[n - 1].chunk))
  }

  lemma FirstOfCut(ops: seq<Op>, i: nat, op: Op)
    requires i < |ops| && (op == ops[i] || (op.OpAdd? && ops[i].OpAdd? && op.chunk <= ops[i].chunk))
    ensures FirstOf(ops[..i] + [op], ops)
    ensures op == ops[i] ==> ops[..i] + [op] == ops[..i + 1]
  {
    assert (ops[..i] + [op])[..i] == ops[..i];
  }

  lemma NothingYet(ops: seq<Op>)
    ensures FirstOf([], ops)
  {
  }

  /** One operation, of which the chunk may be cut. */
  method Operate(b: LineBuffer, op: Op) returns (lines: seq<seq<char>>, whole: bool, ghost executed: Op)
    requires b.Valid()
    modifies b, b.content
    ensures b.Valid() && (b.content == old(b.content) || b.content == null || fresh(b.content))
    ensures (lines, b.Text()) == Taken(old(b.Text()), [executed])
    ensures whole == (executed == op)
    ensures whole || (executed.OpAdd? && op.OpAdd? && executed.chunk <= op.chunk
                      && |b.Text()| + 3 * CHUNK_SIZE > MAX_SIZE)
  {
    hide Taken, HasLine, Newline;
    lines, whole := [], true;
    if op.OpAdd? {
      var _, taken := b.Add(op.chunk, false);
      executed := OpAdd(op.chunk[..taken]);
      whole := taken == |op.chunk|;
      assert whole ==> op.chunk[..taken] == op.chunk;
    } else {
      var line := b.GetLine();
      executed := OpGet;
      if line.Some? {
        lines := [line.value];
      }
    }
    TakenOne(old(b.Text()), executed);
  }

  /** Drives a buffer through the operations, up to the first chunk that does not fit: the lines it gives and the text it
      keeps are those of the operations carried out, which are all of them unless the buffer is at its size limit. */
  method Drive(b: LineBuffer, ops: seq<Op>) returns (lines: seq<seq<char>>, ghost executed: seq<Op>)
    requires b.Valid()
    modifies b, b.content
    ensures b.Valid() && (lines, b.Text()) == Taken(old(b.Text()), executed)
    ensures FirstOf(executed, ops) && (executed == ops || |b.Text()| + 3 * CHUNK_SIZE > MAX_SIZE)
    ensures lines + Lines(b.Text()) == Lines(old(b.Text()) + Added(executed))
  {
    hide Taken, Added, Lines, FirstOf;
    ghost var text := b.Text();
    lines, executed := [], [];
    RunOfNothing(text);
    NothingYet(ops);
    var i := 0;
    while i < |ops|
      invariant i <= |ops| && executed == ops[..i] && FirstOf(executed, ops)
      invariant b.Valid() && (lines, b.Text()) == Taken(text, executed)
      invariant b.content == old(b.content) || b.content == null || fresh(b.content)
    {
      var more, whole, op := Operate(b, ops[i]);
      TakenMore(text, executed, op);
      FirstOfCut(ops, i, op);
      lines, executed := lines + more, executed + [op];
      if !whole {
        break;
      }
      i := i + 1;
    }
    LinesInOrder(text, executed);
  }
}
