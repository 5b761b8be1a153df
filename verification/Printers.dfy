/** mysprintf of src/infoLoggerMessage.c: appends text to a buffer of fixed size, with an error flag. */
module Printers {
  import opened Options
  import opened Codec

  /** What fits in a buffer of `size` bytes, its NUL included. */
  function Trunc(s: string, size: nat): string
    requires size > 0
  {
    if |s| < size then s else s[..size - 1]
  }

  lemma TruncFits(s: string, size: nat)
    requires |s| < size
    ensures Trunc(s, size) == s
  {
  }

  lemma TruncLength(s: string, size: nat)
    requires size > 0
    ensures |Trunc(s, size)| == if |s| < size then |s| else size - 1
  {
  }

  /** Text after a full buffer changes nothing. */
  lemma TruncFull(start: string, s: string, size: nat)
    requires |start| >= size > 0
    ensures Trunc(start + s, size) == Trunc(start, size)
  {
    assert (start + s)[..size - 1] == start[..size - 1];
  }

  /** Text after a full buffer of which a part is cut. */
  lemma TruncPart(start: string, s: string, size: nat)
    requires |start| < size
    ensures Trunc(start + s, size) == start + if |s| < size - |start| then s else s[..size - |start| - 1]
  {
  }

  lemma TruncPrefix(s: string, size: nat, pos: nat)
    requires size > 0 && pos <= |Trunc(s, size)|
    ensures pos <= |s| && Trunc(s, size)[..pos] == s[..pos]
  {
  }

  lemma SanitizeTrunc(start: string, added: string, size: nat)
    requires size > 0
    ensures var t, u := Trunc(start + added, size), Trunc(start + Sanitize(added), size);
            |t| == |u| && forall i :: 0 <= i < |t| ==> u[i] == if i < |Trunc(start, size)| then t[i] else SafeChar(t[i])
  {
  }

  lemma SanitizeNoNul(s: string)
    requires '\0' !in s
    ensures '\0' !in Sanitize(s)
  {
  }

  class Printer {
    const buffer: array<char>
    var strLength: nat
    var isError: bool

    /** All the text given so far, as if the buffer had no limit. */
    ghost var ideal: string

    ghost predicate Valid()
      reads this, buffer
    {
      Sound() && buffer[strLength] == '\0'
    }

    /** The text is right, but its final NUL may be missing. */
    ghost predicate Sound()
      reads this, buffer
    {
      && strLength < buffer.Length && '\0' !in ideal
      && buffer[..strLength] == Trunc(ideal, buffer.Length)
      && (isError ==> |ideal| >= buffer.Length)
      && (!isError ==> |ideal| < buffer.Length || strLength == buffer.Length - 1)
    }

    /** mysprintf_init with a buffer of the caller. */
    constructor (buffer: array<char>)
      requires buffer.Length > 0
      modifies buffer
      ensures Valid() && this.buffer == buffer && ideal == "" && !isError
    {
      this.buffer := buffer;
      strLength, isError, ideal := 0, false, "";
      new;
      buffer[0] := '\0';
    }

    /** vsnprintf: as much of s as fits at the end of the text, then a NUL. */
    method Store(s: string)
      requires strLength < buffer.Length
      modifies buffer
      ensures var n := if |s| < buffer.Length - strLength then |s| else buffer.Length - strLength - 1;
              buffer[..strLength + n] == old(buffer[..strLength]) + s[..n] && buffer[strLength + n] == '\0'
    {
      var n := if |s| < buffer.Length - strLength then |s| else buffer.Length - strLength - 1;
      forall i | 0 <= i < n {
        buffer[strLength + i] := s[i];
      }
      buffer[strLength + n] := '\0';
    }

    /** mysprintf with the text already formatted. */
    method Print(s: string) returns (rc: int)
      requires Sound() && (isError ==> Valid()) && '\0' !in s
      modifies this, buffer
      ensures Valid() && ideal == old(ideal) + s
      ensures s != "" ==> (isError <==> |ideal| >= buffer.Length)
      ensures old(isError) ==> isError
    {
      hide Trunc;
      ghost var start := ideal;
      TruncLength(start, buffer.Length);
      ideal := start + s;
      if isError {
        TruncFull(start, s, buffer.Length);
        return -1;
      }
      assert |start| >= buffer.Length ==> strLength == buffer.Length - 1;
      Store(s);
      if |s| + strLength >= buffer.Length {
        isError := true;
        assert strLength + (buffer.Length - strLength - 1) == buffer.Length - 1;
        strLength := buffer.Length - 1;
        Appended(start, s, buffer.Length);
        return -1;
      }
      assert s[..|s|] == s;
      strLength := strLength + |s|;
      Appended(start, s, buffer.Length);
      rc := 0;
    }

    /** The buffer after as much of s as fits was added. */
    static lemma Appended(start: string, s: string, size: nat)
      requires size > 0
      ensures var t := Trunc(start, size);
              Trunc(start + s, size) == t + if |s| < size - |t| then s else s[..size - |t| - 1]
    {
      hide Trunc;
      TruncLength(start, size);
      if |start| < size {
        TruncFits(start, size);
        TruncPart(start, s, size);
      } else {
        TruncFull(start, s, size);
        assert Trunc(start, size) + (if |s| < 1 then s else s[..0]) == Trunc(start, size);
      }
    }

    /** The text printed from position ix on is cut after `length` characters, if it still fits in the buffer. */
    method CutAfter(ix: nat, length: nat, ghost start: string, ghost added: string)
      requires Valid() && ideal == start + added && length <= |added| && ix == |Trunc(start, buffer.Length)|
      modifies this, buffer
      ensures Valid() && ideal == start + added[..length]
    {
      hide Trunc;
      TruncLength(start, buffer.Length);
      Cut(start, added, length, buffer.Length);
      var newl := ix + length;
      ideal := start + added[..length];
      if newl < buffer.Length {
        assert newl <= strLength;
        assert buffer[..newl] == buffer[..strLength][..newl];
        strLength := newl;
        buffer[newl] := '\0';
        isError := false;
      }
    }

    static lemma Cut(start: string, added: string, length: nat, size: nat)
      requires size > 0 && length <= |added|
      ensures var t, u, ix := Trunc(start + added, size), Trunc(start + added[..length], size), |Trunc(start, size)|;
              if ix + length < size then ix + length <= |t| && u == t[..ix + length]
              else u == t && |start| + length >= size
    {
      hide Trunc;
      TruncLength(start, size);
      TruncLength(start + added, size);
      Appended(start, added, size);
      Appended(start, added[..length], size);
    }

    /** Goes back to position pos and ends the text with s. */
    method EndWith(pos: nat, s: string)
      requires Valid() && pos <= strLength && pos + |s| < buffer.Length && s != "" && '\0' !in s
      modifies this, buffer
      ensures Valid() && ideal == old(Trunc(ideal, buffer.Length))[..pos] + s && !isError
    {
      hide Trunc;
      isError := false;
      strLength := pos;
      InTrunc(ideal, buffer.Length);
      ideal := Trunc(ideal, buffer.Length)[..pos];
      TruncFits(ideal, buffer.Length);
      assert buffer[..pos] == ideal;
      var _ := Print(s);
    }

    /** Replaces the special characters of the text from position ix on. */
    method SanitizeFrom(ix: nat, ghost start: string, ghost added: string)
      requires Valid() && ideal == start + added && ix == |Trunc(start, buffer.Length)|
      modifies this`ideal, buffer
      ensures Valid() && ideal == start + Sanitize(added) && strLength == old(strLength) && isError == old(isError)
    {
      hide Trunc, Sanitize;
      SanitizeTrunc(start, added, buffer.Length);
      SanitizeNoNul(added);
      Appended(start, added, buffer.Length);
      ghost var was := buffer[..strLength];
      assert forall k :: 0 <= k < strLength ==> was[k] in ideal by {
        InTrunc(ideal, buffer.Length);
      }
      var i := ix;
      while buffer[i] != '\0'
        invariant ix <= i <= strLength && buffer[strLength] == '\0'
        invariant forall k :: 0 <= k < ix || i <= k < strLength ==> buffer[k] == was[k]
        invariant forall k :: ix <= k < i ==> buffer[k] == SafeChar(was[k])
        decreases strLength - i
      {
        if buffer[i] == '*' || buffer[i] == '#' || buffer[i] == '\n' {
          buffer[i] := '?';
        }
        i := i + 1;
      }
      assert i == strLength;
      ideal := start + Sanitize(added);
      assert buffer[..strLength] == Trunc(ideal, buffer.Length);
    }
  }

  lemma InTrunc(s: string, size: nat)
    requires size > 0
    ensures forall k :: 0 <= k < |Trunc(s, size)| ==> Trunc(s, size)[k] in s
  {
  }
}
