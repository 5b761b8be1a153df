/** infoLog_msg_encode of src/infoLoggerMessage.c: writes the records of a message in a buffer of limited size. */
module Encoders {
  import opened Codec
  import opened Printers
  import opened Text
  import opened TextLines

  /** The buffer b holds the C string t. */
  predicate HoldsText(b: seq<char>, t: string) {
    |t| < |b| && b[..|t|] == t && b[|t|] == '\0' && '\0' !in t
  }

  /** What is printed of the text of the split field: up to the newline at eol, or all of it when eol is negative. */
  function LineOf(rest: string, eol: int): string
    requires eol <= |rest|
  {
    if eol < 0 then rest else rest[..eol]
  }

  /** Prints one string: the whole C string, then cut at the end of the line, then special characters replaced. */
  method PrintString(p: Printer, str: string, eol: int) returns (ix: int)
    requires p.Valid() && '\0' !in str && eol <= |str|
    modifies p, p.buffer
    ensures p.Valid() && p.ideal == old(p.ideal) + Sanitize(LineOf(str, eol))
    ensures ix == |Trunc(old(p.ideal), p.buffer.Length)|
  {
    hide Trunc, Sanitize;
    ghost var start := p.ideal;
    TruncLength(start, p.buffer.Length);
    ix := p.strLength;
    var _ := p.Print(str);
    if eol >= 0 {
      p.CutAfter(ix, eol, start, str);
    }
    p.SanitizeFrom(ix, start, LineOf(str, eol));
  }

  /** Prints a field; ix is where its text starts, when it is a defined string. */
  method PrintField(p: Printer, v: Value, ghost f: FieldDef) returns (ix: int)
    requires p.Valid() && Fits(f, v)
    modifies p, p.buffer
    ensures p.Valid() && p.ideal == old(p.ideal) + FieldText(v)
    ensures ix == if v.StringValue? then |Trunc(old(p.ideal), p.buffer.Length)| else -1
  {
    hide Trunc, Sanitize, PrintInt, PrintDouble;
    FieldTextIsPlain(f, v);
    ix := -1;
    match v
    case Undefined =>
      assert p.ideal + "" == p.ideal;
    case StringValue(s) =>
      ix := PrintString(p, s, -1);
    case IntValue(i) =>
      var _ := p.Print(PrintInt(i));
    case DoubleValue(m) =>
      var _ := p.Print(PrintDouble(m));
  }

  lemma FieldsTextGrow(proto: Proto, vs: seq<Value>, e: nat)
    requires e < |vs|
    ensures Opened(proto, vs[..e + 1]) == Opened(proto, vs[..e]) + "#" + FieldText(vs[e])
    ensures Head(proto, vs[..e + 1]) == Opened(proto, vs[..e]) + "#"
    ensures LastIsString(vs[..e + 1]) <==> vs[e].StringValue?
  {
    hide FieldText, FieldsText;
    assert vs[..e + 1] == vs[..e] + [vs[e]];
    assert vs[..e + 1][..e] == vs[..e];
    FieldsTextAppend(vs[..e], vs[e]);
  }

  /** The text after the fields of the record vs, or after the first of its fields, i, that did not fit; ix is where
      the text of the last printed field starts, if it is a string. */
  ghost predicate Printed(ideal: string, proto: Proto, vs: seq<Value>, i: nat, ix: int, before: string, size: nat) {
    && size > 0 && i <= |vs|
    && var done := vs[..if i < |vs| then i + 1 else i];
    && ideal == before + Opened(proto, done)
    && (|done| < |vs| ==> |ideal| >= size)
    && ix == if LastIsString(done) then |Trunc(before + Head(proto, done), size)| else -1
  }

  /** Prints a record up to its newline, or up to the first field that does not fit. The split field is the rest of
      its text, of which the line ends at eol. */
  method PrintRecord(p: Printer, proto: Proto, values: seq<Value>, split: int, rest: string, eol: int,
      ghost vs: seq<Value>) returns (i: nat, ix: int)
    requires p.Valid() && '\0' !in proto.version && '\0' !in rest && eol <= |rest|
    requires |values| == |proto.fields| && -1 <= split < |values|
    requires vs == if split >= 0 && values[split].StringValue?
                   then values[split := StringValue(LineOf(rest, eol))] else values
    requires forall k :: 0 <= k < |values| ==> Fits(proto.fields[k], values[k])
    modifies p, p.buffer
    ensures p.Valid() && Printed(p.ideal, proto, vs, i, ix, old(p.ideal), p.buffer.Length)
  {
    hide Trunc, FieldText, FieldsText, LineOf, Fits, Sanitize, Opened, Head, LastIsString;
    ghost var before := p.ideal;
    i, ix := 0, -1;
    var _ := p.Print("*" + proto.version);
    NoFields(proto, vs);
    while i < |values|
      invariant i <= |values| && p.Valid()
      invariant p.ideal == before + Opened(proto, vs[..i])
      invariant ix == if LastIsString(vs[..i])
                      then |Trunc(before + Head(proto, vs[..i]), p.buffer.Length)| else -1
    {
      ghost var start := p.ideal;
      FieldsTextGrow(proto, vs, i);
      var _ := p.Print("#");
      assert p.ideal == before + Head(proto, vs[..i + 1]);
      if i == split && values[i].StringValue? {
        ix := PrintString(p, rest, eol);
        assert FieldText(vs[i]) == Sanitize(LineOf(rest, eol)) by {
          TextOfString(LineOf(rest, eol));
        }
      } else {
        assert vs[i] == values[i];
        ix := PrintField(p, values[i], proto.fields[i]);
      }
      assert p.ideal == before + Opened(proto, vs[..i + 1]);
      if p.isError {
        assert i + 1 == |vs| ==> vs[..i + 1] == vs;
        return;
      }
      i := i + 1;
    }
  }

  lemma TextOfString(s: string)
    ensures FieldText(StringValue(s)) == Sanitize(s)
  {
  }

  lemma NoFields(proto: Proto, vs: seq<Value>)
    ensures Opened(proto, vs[..0]) == "*" + proto.version && !LastIsString(vs[..0])
  {
  }

  lemma {:induction false} OpenedGrows(proto: Proto, vs: seq<Value>, e: nat)
    requires e <= |vs|
    ensures |Opened(proto, vs[..e])| <= |Opened(proto, vs)|
    ensures e < |vs| ==> |Opened(proto, vs[..e])| <= |Head(proto, vs)|
    decreases |vs| - e
  {
    hide FieldsText, FieldText;
    if e < |vs| {
      FieldsTextGrow(proto, vs, e);
      OpenedGrows(proto, vs, e + 1);
      assert vs[..|vs|] == vs;
    } else {
      assert vs[..e] == vs;
    }
  }

  lemma NoRecord(proto: Proto, vs: seq<Value>)
    ensures vs == [] ==> !LastIsString(vs)
  {
  }

  /** Where a truncation mark goes; negative when there is no room for it. */
  function MarkAt(i: nat, ix: int, lastGood: int, fields: nat, size: nat): int {
    if ix >= 0 && i + 1 >= fields && size - |MARK| - 1 >= ix then size - |MARK| - 1
    else if lastGood >= 0 then lastGood - 1
    else -1
  }

  /** A record that fits is completed by its newline. */
  lemma FitsText(ideal: string, proto: Proto, vs: seq<Value>, i: nat, ix: int, before: string, size: nat, more: bool)
    requires Printed(ideal, proto, vs, i, ix, before, size) && !TooLong(ideal + "\n", more, size)
    ensures ideal + "\n" == before + Record(proto, vs)
  {
    hide Opened, Head, LastIsString, Trunc;
    assert vs[..|vs|] == vs;
  }

  /** A record that does not fit is too long, and the mark goes where the specification wants it. */
  lemma CutText(ideal: string, proto: Proto, vs: seq<Value>, i: nat, ix: int, before: string, size: nat, more: bool)
    requires Printed(ideal, proto, vs, i, ix, before, size) && TooLong(ideal + "\n", more, size)
    requires before != "" ==> |before| + |MARK| + 1 <= size
    ensures TooLong(before + Record(proto, vs), more, size)
    ensures var pos := MarkAt(i, ix, if before == "" then -1 else |before|, |vs|, size);
            var r := CutRecord(proto, vs, before, size);
            var t := Trunc(ideal + "\n", size);
            if r.Cut? then 0 <= pos <= |t| && pos + |MARK| + 1 <= size && r.text == t[..pos] + MARK else pos < 0
  {
    hide Opened, Head, LastIsString, Trunc;
    var done := vs[..if i < |vs| then i + 1 else i];
    var text := before + Record(proto, vs);
    OpenedGrows(proto, vs, |done|);
    NoRecord(proto, vs);
    TruncLength(ideal + "\n", size);
    if LastIsString(vs) {
      TruncLength(before + Head(proto, vs), size);
    }
    if |done| == |vs| {
      assert done == vs;
      assert ideal + "\n" == text;
    } else {
      assert |text| >= size;
    }
    var pos := MarkAt(i, ix, if before == "" then -1 else |before|, |vs|, size);
    if 0 <= pos <= |Trunc(ideal + "\n", size)| {
      TruncPrefix(ideal + "\n", size, pos);
      assert pos < |before| ==> (ideal + "\n")[..pos] == before[..pos];
    }
  }

  /** Ends a record, or truncates the text when the record is too long or leaves no room for a later mark. */
  method EndRecord(p: Printer, proto: Proto, i: nat, ix: int, lastGood: int, more: bool, ghost vs: seq<Value>,
      ghost before: string) returns (fits: bool, truncated: bool)
    requires p.Valid() && |vs| == |proto.fields|
    requires Printed(p.ideal, proto, vs, i, ix, before, p.buffer.Length)
    requires before != "" ==> |before| + |MARK| + 1 <= p.buffer.Length
    requires lastGood == if before == "" then -1 else |before|
    modifies p, p.buffer
    ensures p.Valid()
    ensures fits == !TooLong(before + Record(proto, vs), more, p.buffer.Length)
    ensures fits ==> !truncated && p.ideal == before + Record(proto, vs) && !p.isError && p.strLength == |p.ideal|
    ensures !fits ==> truncated == CutRecord(proto, vs, before, p.buffer.Length).Cut?
    ensures !fits && truncated ==>
              p.ideal == CutRecord(proto, vs, before, p.buffer.Length).text && |p.ideal| < p.buffer.Length
  {
    hide Trunc, Opened, Head, LastIsString, Printed, CutRecord, Record;
    ghost var ideal := p.ideal;
    var _ := p.Print("\n");
    TruncLength(p.ideal, p.buffer.Length);
    fits, truncated := true, false;
    if p.isError || (more && p.strLength + |MARK| + 1 > p.buffer.Length) {
      CutText(ideal, proto, vs, i, ix, before, p.buffer.Length, more);
      fits := false;
      var pos := -1;
      if ix >= 0 && i + 1 >= |proto.fields| {
        pos := p.buffer.Length - |MARK| - 1;
        if pos < ix {
          pos := -1;
        }
      }
      if pos < 0 && lastGood >= 0 {
        pos := lastGood - 1;
      }
      if pos >= 0 && pos + |MARK| + 1 <= p.buffer.Length {
        p.EndWith(pos, MARK);
        truncated := true;
      }
    } else {
      FitsText(ideal, proto, vs, i, ix, before, p.buffer.Length, more);
    }
  }

  /** The lines of the split field, seen from the start of one of them. */
  lemma LineStep(text: string, rest: string, k: nat)
    requires k <= |SplitLines(text)| && SplitLines(text)[k..] == SplitLines(rest)
    ensures k < |SplitLines(text)|
    ensures var eol := if Newline(rest) < |rest| then Newline(rest) else -1;
            && SplitLines(text)[k] == LineOf(rest, eol)
            && (eol >= 0 <==> k + 1 < |SplitLines(text)|)
            && (eol >= 0 ==> SplitLines(text)[k + 1..] == SplitLines(rest[eol + 1..]))
  {
    hide SplitLines;
    SplitStep(rest);
    var ls := SplitLines(text);
    assert ls[k..][0] == ls[k];
    assert ls[k..][1..] == ls[k + 1..];
  }

  /** The split field exists and holds strings. */
  predicate SplitOk(msg: Message, split: int)
    requires msg.Ok()
  {
    -1 <= split < |msg.values| && (split >= 0 ==> msg.proto.fields[split].kind.TypeString?)
  }

  /** The returned code and the buffer are what e says. */
  predicate Returned(rc: int, b: seq<char>, e: Encoded) {
    match e
    case Done(text) => rc == 0 && HoldsText(b, text)
    case Cut(text) => rc == -1 && HoldsText(b, text)
    case Failed => rc > 0 && '\0' in b
  }

  /** Record k is the message, with line k of the text in its split field. */
  lemma Shape(msg: Message, split: int, k: nat)
    requires msg.Ok() && SplitOk(msg, split)
    ensures var rs := RecordValues(msg.values, split);
            if split >= 0 && msg.values[split].StringValue? then
              var ls := SplitLines(msg.values[split].s);
              |rs| == |ls| && (k < |rs| ==> rs[k] == msg.values[split := StringValue(ls[k])])
            else rs == [msg.values]
  {
    hide SplitLines;
  }

  /** Writes one record: the line that starts the rest of the split field, which ends at eol. */
  method EncodeOne(p: Printer, msg: Message, split: int, sol: bool, rest: string, lastGood: int, ghost k: nat,
      ghost before: string) returns (eol: int, fits: bool, truncated: bool)
    requires msg.Ok() && SplitOk(msg, split) && k < |RecordValues(msg.values, split)| && '\0' !in rest
    requires p.Valid() && p.ideal == before
    requires before != "" ==> |before| + |MARK| + 1 <= p.buffer.Length
    requires lastGood == if before == "" then -1 else |before|
    requires sol <==> split >= 0 && msg.values[split].StringValue?
    requires sol ==> SplitLines(msg.values[split].s)[k..] == SplitLines(rest)
    modifies p, p.buffer
    ensures p.Valid() && eol < |rest| && (eol >= 0 <==> k + 1 < |RecordValues(msg.values, split)|)
    ensures sol && eol >= 0 ==> SplitLines(msg.values[split].s)[k + 1..] == SplitLines(rest[eol + 1..])
    ensures eol >= 0 ==> sol
    ensures var vs := RecordValues(msg.values, split)[k];
            && fits == !TooLong(before + Record(msg.proto, vs), eol >= 0, p.buffer.Length)
            && (fits ==> p.ideal == before + Record(msg.proto, vs) && !p.isError && p.strLength == |p.ideal|)
            && (!fits ==> truncated == CutRecord(msg.proto, vs, before, p.buffer.Length).Cut?)
            && (!fits && truncated ==>
                  p.ideal == CutRecord(msg.proto, vs, before, p.buffer.Length).text && |p.ideal| < p.buffer.Length)
            && (fits ==> !truncated)
  {
    hide Record, SplitLines, Newline, LineOf, CutRecord, Opened, Head, LastIsString, Trunc, TooLong, Printed,
      RecordValues;
    ghost var vs := RecordValues(msg.values, split)[k];
    Shape(msg, split, k);
    eol := -1;
    if sol {
      LineStep(msg.values[split].s, rest, k);
      var n := Newline(rest);
      eol := if n < |rest| then n else -1;
    }
    var i, ix := PrintRecord(p, msg.proto, msg.values, split, rest, eol, vs);
    fits, truncated := EndRecord(p, msg.proto, i, ix, lastGood, eol >= 0, vs, before);
  }

  /** infoLog_msg_encode */
  method Encode(msg: Message, buffer: array<char>, split: int) returns (rc: int)
    requires msg.Ok()
    modifies buffer
    ensures buffer.Length == 0 || !SplitOk(msg, split) ==> rc > 0 && buffer[..] == old(buffer[..])
    ensures buffer.Length > 0 && SplitOk(msg, split) ==>
              var e := EncodeFrom(msg.proto, RecordValues(msg.values, split), "", buffer.Length);
              && (if e.Done? then rc == 0 else if e.Cut? then rc == -1 else rc > 0)
              && (!e.Failed? ==> |e.text| < buffer.Length && buffer[..|e.text|] == e.text && buffer[|e.text|] == '\0')
              && '\0' in buffer[..]
  {
    hide EncodeFrom, RecordValues;
    if buffer.Length == 0 {
      return 211;
    }
    if split < -1 {
      return 214;
    }
    var sol, rest := false, "";
    if split >= 0 {
      if split >= |msg.proto.fields| {
        return 218;
      }
      if !msg.proto.fields[split].kind.TypeString? {
        return 221;
      }
      if !msg.values[split].Undefined? {
        sol, rest := true, msg.values[split].s;
      }
    }
    rc := EncodeLines(msg, buffer, split, sol, rest);
    TextIsThere(buffer[..], rc, EncodeFrom(msg.proto, RecordValues(msg.values, split), "", buffer.Length));
  }

  lemma TextIsThere(b: seq<char>, rc: int, e: Encoded)
    requires Returned(rc, b, e)
    ensures if e.Done? then rc == 0 else if e.Cut? then rc == -1 else rc > 0
    ensures '\0' in b && (!e.Failed? ==> |e.text| < |b| && b[..|e.text|] == e.text && b[|e.text|] == '\0')
  {
  }

  /** The loop over the lines of the split field; the first one starts the text `first`. */
  method EncodeLines(msg: Message, buffer: array<char>, split: int, sol: bool, first: string) returns (rc: int)
    requires msg.Ok() && SplitOk(msg, split) && buffer.Length > 0 && '\0' !in first
    requires sol <==> split >= 0 && msg.values[split].StringValue?
    requires sol ==> first == msg.values[split].s
    modifies buffer
    ensures Returned(rc, buffer[..], EncodeFrom(msg.proto, RecordValues(msg.values, split), "", buffer.Length))
  {
    hide EncodeFrom, Record, SplitLines, CutRecord, TooLong, HoldsText, RecordValues, Trunc;
    ghost var rs := RecordValues(msg.values, split);
    Shape(msg, split, 0);
    var p := new Printer(buffer);
    ghost var k, before := 0, "";
    var lastGood: int := -1;
    var rest := first;
    while true
      invariant p.Valid() && p.buffer == buffer && fresh(p)
      invariant k < |rs| && p.ideal == before
      invariant before != "" ==> |before| + |MARK| + 1 <= buffer.Length
      invariant lastGood == if before == "" then -1 else |before|
      invariant '\0' !in rest
      invariant sol ==> SplitLines(msg.values[split].s)[k..] == SplitLines(rest)
      invariant EncodeFrom(msg.proto, rs, "", buffer.Length) == EncodeFrom(msg.proto, rs[k..], before, buffer.Length)
      decreases |rs| - k
    {
      EncodeStep(msg.proto, rs, k, before, buffer.Length);
      var eol, fits, truncated := EncodeOne(p, msg, split, sol, rest, lastGood, k, before);
      if truncated {
        Ended(p);
        return -1;
      }
      if !fits {
        assert buffer[p.strLength] == '\0';
        return 330;
      }
      if eol < 0 {
        Ended(p);
        return 0;
      }
      rest := rest[eol + 1..];
      lastGood := p.strLength;
      before := before + Record(msg.proto, rs[k]);
      k := k + 1;
    }
  }

  /** The text of a printer that did not overflow. */
  lemma Ended(p: Printer)
    requires p.Valid() && |p.ideal| < p.buffer.Length
    ensures HoldsText(p.buffer[..], p.ideal)
  {
    TruncFits(p.ideal, p.buffer.Length);
    assert p.buffer[..][..p.strLength] == p.buffer[..p.strLength];
  }

  lemma EncodeStep(proto: Proto, rs: seq<seq<Value>>, k: nat, before: string, size: nat)
    requires k < |rs| && size > 0
    ensures var text, more := before + Record(proto, rs[k]), k + 1 < |rs|;
            EncodeFrom(proto, rs[k..], before, size) ==
              if TooLong(text, more, size) then CutRecord(proto, rs[k], before, size)
              else if more then EncodeFrom(proto, rs[k + 1..], text, size)
              else Done(text)
    ensures var text, more := before + Record(proto, rs[k]), k + 1 < |rs|;
            !TooLong(text, more, size) ==> text != "" && |text| < size && (more ==> |text| + |MARK| + 1 <= size)
  {
    hide CutRecord, Opened;
    assert rs[k..][0] == rs[k] && rs[k..][1..] == rs[k + 1..];
  }
}
