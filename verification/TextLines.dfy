/** The lines of a text: what the line buffer delivers, and what the encoder splits a field into. */
module TextLines {
  /** The position of the first newline. */
  function Newline(s: seq<char>): (n: nat)
    ensures n <= |s| && '\n' !in s[..n]
    ensures n < |s| ==> s[n] == '\n'
  {
    if s == [] || s[0] == '\n' then 0 else 1 + Newline(s[1..])
  }

  /** The complete lines of a stream, without their newlines, and the unfinished tail. */
  function Lines(s: seq<char>): seq<seq<char>>
    decreases |s|
  {
    var n := Newline(s);
    if n == |s| then [] else [s[..n]] + Lines(s[n + 1..])
  }

  function Tail(s: seq<char>): seq<char>
    decreases |s|
  {
    var n := Newline(s);
    if n == |s| then s else Tail(s[n + 1..])
  }

  lemma {:induction false} NewlineOfSum(s: seq<char>, t: seq<char>)
    ensures Newline(s + t) == if Newline(s) < |s| then Newline(s) else |s| + Newline(t)
  {
    if s == [] {
      assert s + t == t;
    } else if s[0] != '\n' {
      NewlineOfSum(s[1..], t);
      assert (s + t)[1..] == s[1..] + t;
    }
  }

  lemma LinesUnfold(s: seq<char>)
    ensures Lines(s) == if Newline(s) == |s| then [] else [s[..Newline(s)]] + Lines(s[Newline(s) + 1..])
  {
    hide Newline, Tail;
  }

  lemma TailUnfolds(s: seq<char>)
    ensures Tail(s) == if Newline(s) == |s| then s else Tail(s[Newline(s) + 1..])
  {
    hide Newline, Lines;
  }

  lemma FirstLine(s: seq<char>)
    ensures Newline(s) == |s| ==> Lines(s) == [] && Tail(s) == s
    ensures Newline(s) < |s| ==> Lines(s) == [s[..Newline(s)]] + Lines(s[Newline(s) + 1..])
    ensures Newline(s) < |s| ==> Tail(s) == Tail(s[Newline(s) + 1..])
  {
    hide *;
    LinesUnfold(s);
    TailUnfolds(s);
  }

  /** The first line of a stream that goes on. */
  lemma FirstLineOfSum(s: seq<char>, t: seq<char>)
    requires Newline(s) < |s|
    ensures var n := Newline(s);
            Lines(s + t) == [s[..n]] + Lines(s[n + 1..] + t) && Tail(s + t) == Tail(s[n + 1..] + t)
  {
    hide Newline, Lines, Tail;
    var n := Newline(s);
    NewlineOfSum(s, t);
    FirstLine(s + t);
    assert (s + t)[..n] == s[..n] && (s + t)[n + 1..] == s[n + 1..] + t;
  }

  /** Adding to a stream keeps its lines and continues its tail. */
  lemma {:induction false} LinesOfSum(s: seq<char>, t: seq<char>)
    ensures Lines(s + t) == Lines(s) + Lines(Tail(s) + t)
    ensures Tail(s + t) == Tail(Tail(s) + t)
    decreases |s|
  {
    hide Newline, Lines, Tail;
    var n := Newline(s);
    FirstLine(s);
    if n < |s| {
      FirstLineOfSum(s, t);
      LinesOfSum(s[n + 1..], t);
    } else {
      assert [] + Lines(s + t) == Lines(s + t);
    }
  }
}
