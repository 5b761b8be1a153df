/** What infoLog_msg_encode promises about the text it writes, for every message and every buffer size. */
module RecordTexts {
  import opened Codec
  import opened TextLines

  lemma RecordsFirst(proto: Proto, rs: seq<seq<Value>>)
    requires rs != []
    ensures Records(proto, rs) == Record(proto, rs[0]) + Records(proto, rs[1..])
    ensures |rs| > 1 ==>
              Records(proto, rs[..|rs| - 1]) == Record(proto, rs[0]) + Records(proto, rs[1..][..|rs| - 2])
  {
    hide Record;
    if |rs| > 1 {
      assert rs[..|rs| - 1][0] == rs[0] && rs[..|rs| - 1][1..] == rs[1..][..|rs| - 2];
    }
  }

  lemma {:induction false} DoneFrom(proto: Proto, rs: seq<seq<Value>>, before: string, size: nat)
    requires rs != [] && size > 0
    ensures var e := EncodeFrom(proto, rs, before, size);
            var all := before + Records(proto, rs);
            && (e.Done? <==> |all| < size
                             && (|rs| > 1 ==> |before + Records(proto, rs[..|rs| - 1])| + |MARK| + 1 <= size))
            && (e.Done? ==> e.text == all)
    decreases |rs|
  {
    hide Record, CutRecord, Records;
    RecordsFirst(proto, rs);
    var text := before + Record(proto, rs[0]);
    assert before + Records(proto, rs) == text + Records(proto, rs[1..]);
    if |rs| == 1 {
      assert rs[1..] == [];
      NoRecords(proto);
    } else {
      DoneFrom(proto, rs[1..], text, size);
      if |rs| == 2 {
        assert rs[1..][..0] == [];
        NoRecords(proto);
      }
    }
  }

  lemma NoRecords(proto: Proto)
    ensures Records(proto, []) == ""
  {
  }

  /** A successful encoding holds every record, and succeeds exactly when all of them fit and the text before the last
      one leaves room for a mark. */
  lemma DoneIff(proto: Proto, rs: seq<seq<Value>>, size: nat)
    requires rs != [] && size > 0
    ensures var e := EncodeFrom(proto, rs, "", size);
            && (e.Done? <==> |Records(proto, rs)| < size
                             && (|rs| > 1 ==> |Records(proto, rs[..|rs| - 1])| + |MARK| + 1 <= size))
            && (e.Done? ==> e.text == Records(proto, rs))
  {
    hide EncodeFrom, Records;
    DoneFrom(proto, rs, "", size);
    assert "" + Records(proto, rs) == Records(proto, rs);
    assert |rs| > 1 ==> "" + Records(proto, rs[..|rs| - 1]) == Records(proto, rs[..|rs| - 1]);
  }

  lemma TooLongToMark(proto: Proto, rs: seq<seq<Value>>, before: string, size: nat)
    requires rs != [] && size > 0
    ensures LastIsString(rs[0]) && |before + Head(proto, rs[0])| + |MARK| + 1 <= size &&
            TooLong(before + Record(proto, rs[0]), |rs| > 1, size) ==>
              |before + Record(proto, rs[0])| + |MARK| + 1 > size
  {
  }

  lemma {:induction false} NeverFailsLater(proto: Proto, rs: seq<seq<Value>>, before: string, size: nat)
    requires rs != [] && size > 0 && before != ""
    ensures !EncodeFrom(proto, rs, before, size).Failed?
    decreases |rs|
  {
    hide Opened, Head;
    TooLongToMark(proto, rs, before, size);
    if !TooLong(before + Record(proto, rs[0]), |rs| > 1, size) && |rs| > 1 {
      NeverFailsLater(proto, rs[1..], before + Record(proto, rs[0]), size);
    }
  }

  /** Nothing can be encoded exactly when the first record is too long and cannot be cut in its last field. */
  lemma FailedIff(proto: Proto, rs: seq<seq<Value>>, size: nat)
    requires rs != [] && size > 0
    ensures EncodeFrom(proto, rs, "", size).Failed? <==>
              && TooLong(Record(proto, rs[0]), |rs| > 1, size)
              && !(LastIsString(rs[0]) && |Head(proto, rs[0])| + |MARK| + 1 <= size)
  {
    hide Opened, Head;
    var text := "" + Record(proto, rs[0]);
    assert text == Record(proto, rs[0]);
    if rs[0] != [] {
      assert "" + Head(proto, rs[0]) == Head(proto, rs[0]);
    }
    if !TooLong(text, |rs| > 1, size) && |rs| > 1 {
      NeverFailsLater(proto, rs[1..], text, size);
    }
  }

  /** A truncated text: k complete records, then record k cut inside its last field, just before the mark at the end of the
      buffer, if that is a string and begins early enough; otherwise nothing of it, and the mark takes the place of the newline
      of the last complete record. */
  predicate CutAt(proto: Proto, rs: seq<seq<Value>>, k: nat, before: string, text: string, size: nat)
    requires k < |rs|
  {
    var done := before + Records(proto, rs[..k]);
    var full := done + Record(proto, rs[k]);
    && TooLong(full, k + 1 < |rs|, size)
    && |text| < size
    && exists n: nat | n <= |full| ::
         && text == full[..n] + MARK
         && if rs[k] != [] && rs[k][|rs[k]| - 1].StringValue? && |done + Head(proto, rs[k])| + |MARK| + 1 <= size
            then n == size - |MARK| - 1
            else n + 1 == |done|
  }

  lemma CutHere(proto: Proto, vs: seq<Value>, rs: seq<seq<Value>>, before: string, size: nat)
    requires rs != [] && vs == rs[0] && TooLong(before + Record(proto, vs), |rs| > 1, size)
    requires before != "" ==> |before| + |MARK| + 1 <= size
    ensures var r := CutRecord(proto, vs, before, size);
            r.Cut? ==> CutAt(proto, rs, 0, before, r.text, size)
  {
    hide Opened, Head, Record;
    var r := CutRecord(proto, vs, before, size);
    if r.Cut? {
      NoRecords(proto);
      assert before + Records(proto, rs[..0]) == before;
      var full := before + Record(proto, vs);
      if LastIsString(vs) && |before + Head(proto, vs)| + |MARK| + 1 <= size {
        assert r.text == full[..size - |MARK| - 1] + MARK;
      } else {
        assert full[..|before| - 1] == before[..|before| - 1];
        assert r.text == full[..|before| - 1] + MARK;
      }
    }
  }

  lemma CutLater(proto: Proto, rs: seq<seq<Value>>, k: nat, before: string, text: string, size: nat)
    requires k + 1 < |rs| && CutAt(proto, rs[1..], k, before + Record(proto, rs[0]), text, size)
    ensures CutAt(proto, rs, k + 1, before, text, size)
  {
    hide Head, Record, Records, TooLong, LastIsString;
    assert rs[..k + 1][0] == rs[0] && rs[..k + 1][1..] == rs[1..][..k];
    RecordsFirst(proto, rs[..k + 1]);
    assert before + Records(proto, rs[..k + 1]) == before + Record(proto, rs[0]) + Records(proto, rs[1..][..k]);
  }

  lemma {:induction false} CutFrom(proto: Proto, rs: seq<seq<Value>>, before: string, size: nat) returns (k: nat)
    requires rs != [] && size > 0 && EncodeFrom(proto, rs, before, size).Cut?
    requires before != "" ==> |before| + |MARK| + 1 <= size
    ensures k < |rs| && CutAt(proto, rs, k, before, EncodeFrom(proto, rs, before, size).text, size)
    decreases |rs|
  {
    hide CutRecord, CutAt, Record, Records;
    var text := before + Record(proto, rs[0]);
    if TooLong(text, |rs| > 1, size) {
      CutHere(proto, rs[0], rs, before, size);
      k := 0;
    } else {
      k := CutFrom(proto, rs[1..], text, size);
      CutLater(proto, rs, k, before, EncodeFrom(proto, rs, before, size).text, size);
      k := k + 1;
    }
  }

  /** A truncated encoding is complete records followed by a cut last record or by nothing, ending in the mark. */
  lemma CutShape(proto: Proto, rs: seq<seq<Value>>, size: nat) returns (k: nat)
    requires rs != [] && size > 0 && EncodeFrom(proto, rs, "", size).Cut?
    ensures k < |rs| && CutAt(proto, rs, k, "", EncodeFrom(proto, rs, "", size).text, size)
  {
    hide EncodeFrom, CutAt;
    k := CutFrom(proto, rs, "", size);
  }

  // One record per line.

  lemma {:induction false} FieldsTextHasNoNewline(fs: seq<FieldDef>, vs: seq<Value>)
    requires |fs| == |vs| && forall i :: 0 <= i < |vs| ==> Fits(fs[i], vs[i])
    ensures '\n' !in FieldsText(vs) && '\0' !in FieldsText(vs)
  {
    hide Fits, FieldText;
    if vs != [] {
      FieldTextIsPlain(fs[0], vs[0]);
      FieldsTextHasNoNewline(fs[1..], vs[1..]);
    }
  }

  predicate AllFit(proto: Proto, rs: seq<seq<Value>>) {
    forall k :: 0 <= k < |rs| ==> Message(proto, rs[k]).Ok()
  }

  lemma {:induction false} NewlineAfter(s: string, t: string)
    requires '\n' !in s
    ensures Newline(s + "\n" + t) == |s|
  {
    if s == [] {
    } else {
      NewlineAfter(s[1..], t);
      assert (s + "\n" + t)[1..] == s[1..] + "\n" + t;
    }
  }

  /** The lines of encoded records are the records. */
  lemma {:induction false} OneRecordPerLine(proto: Proto, rs: seq<seq<Value>>)
    requires AllFit(proto, rs) && '\n' !in proto.version
    ensures Tail(Records(proto, rs)) == ""
    ensures var ls := Lines(Records(proto, rs));
            |ls| == |rs| && forall k :: 0 <= k < |rs| ==> ls[k] == Opened(proto, rs[k])
  {
    hide Newline, Lines, Tail, FieldsText, Fits;
    var text := Records(proto, rs);
    if rs == [] {
      assert Newline("") == 0;
      FirstLine("");
    } else {
      var s, rest := Opened(proto, rs[0]), Records(proto, rs[1..]);
      assert Message(proto, rs[0]).Ok();
      FieldsTextHasNoNewline(proto.fields, rs[0]);
      NewlineAfter(s, rest);
      assert text == s + "\n" + rest;
      FirstLine(text);
      assert text[..|s|] == s && text[|s| + 1..] == rest;
      OneRecordPerLine(proto, rs[1..]);
    }
  }

  /** Splitting a message gives messages of the same protocol. */
  lemma RecordsFit(msg: Message, split: int)
    requires msg.Ok() && -1 <= split < |msg.values|
    requires split >= 0 ==> msg.proto.fields[split].kind.TypeString?
    ensures AllFit(msg.proto, RecordValues(msg.values, split))
  {
    hide SplitLines;
    if split >= 0 && msg.values[split].StringValue? {
      LinesHaveNoNul(msg.values[split].s);
    }
  }

  lemma {:induction false} LinesHaveNoNul(s: string)
    requires '\0' !in s
    ensures forall k :: 0 <= k < |SplitLines(s)| ==> '\0' !in SplitLines(s)[k]
    decreases |s|
  {
    hide SplitLines, Newline;
    SplitStep(s);
    if Newline(s) < |s| {
      LinesHaveNoNul(s[Newline(s) + 1..]);
    }
  }
}
