/** infoLog_decode of src/infoLoggerMessageDecode.c on one blob: fields are found in place, by writing NUL over their
    separators, and converted to the first protocol. */
module Decoders {
  import opened Codec
  import opened Options
  import opened ProtocolTables
  import opened Text

  /** The C string at the start of s. */
  function CStr(s: string): (r: string)
    ensures '\0' !in r && (r != s ==> |r| < |s| && s[|r|] == '\0')
    ensures r <= s
  {
    if s == "" || s[0] == '\0' then "" else [s[0]] + CStr(s[1..])
  }

  lemma {:induction false} CStrStops(s: string, k: nat)
    requires k < |s| && s[k] == '\0'
    ensures CStr(s) == CStr(s[..k])
  {
    if k > 0 && s[0] != '\0' {
      CStrStops(s[1..], k - 1);
      assert s[..k][1..] == s[1..][..k - 1];
    }
  }

  lemma {:induction false} CStrOfText(s: string, after: string)
    requires '\0' !in s && (after != "" ==> after[0] == '\0')
    ensures CStr(s + after) == s
  {
    if s != "" {
      assert (s + after)[1..] == s[1..] + after;
      CStrOfText(s[1..], after);
    } else {
      assert s + after == after;
    }
  }

  /** The position of the next separator, or the length of s. */
  function HashAt(s: string): (n: nat)
    ensures n <= |s| && '#' !in s[..n]
    ensures n < |s| ==> s[n] == '#'
  {
    if s == "" || s[0] == '#' then 0 else 1 + HashAt(s[1..])
  }

  // What a record means.

  /** The value of a field; empty strings and numbers that are not positive are undefined. */
  function ValueOf(kind: FieldType, token: string): Value {
    match kind
    case TypeString => if token == "" then Undefined else StringValue(CStr(token))
    case TypeInt =>
      (match ScanInt(CStr(token))
       case Some((i, _)) => if i > 0 then IntValue(i) else Undefined
       case None => Undefined)
    case TypeDouble =>
      match ScanDouble(CStr(token))
      case Some(m) => if m > 0 then DoubleValue(m) else Undefined
      case None => Undefined
  }

  /** The values vs, then the rest. */
  function Prepend(vs: seq<Value>, rest: Option<seq<Value>>): Option<seq<Value>> {
    if rest.None? then None else Some(vs + rest.value)
  }

  /** The fields of a text: separated by '#', the last one extending to the end of the text. */
  function FieldsOf(fields: seq<FieldDef>, text: string): Option<seq<Value>> {
    if fields == [] then Some([])
    else if |fields| == 1 then Some([ValueOf(fields[0].kind, CStr(text))])
    else
      var h := HashAt(text);
      if h == |text| then None
      else Prepend([ValueOf(fields[0].kind, text[..h])], FieldsOf(fields[1..], text[h + 1..]))
  }

  /** The first protocol of a version, or the number of protocols. */
  function VersionAt(protocols: seq<Proto>, version: string): (p: nat)
    ensures p <= |protocols| && (p < |protocols| ==> protocols[p].version == version)
    ensures forall i :: 0 <= i < p ==> protocols[i].version != version
  {
    if protocols == [] || protocols[0].version == version then 0 else 1 + VersionAt(protocols[1..], version)
  }

  /** The protocol and the values of a record. */
  function Decoded(protocols: seq<Proto>, text: string): Option<(nat, seq<Value>)> {
    if text == "" || text[0] != '*' then None
    else
      var h := HashAt(text[1..]);
      if h == |text| - 1 then None
      else
        var p := VersionAt(protocols, CStr(text[1..][..h]));
        if p == |protocols| then None
        else
          match FieldsOf(protocols[p].fields, text[h + 2..])
          case Some(vs) => Some((p, vs))
          case None => None
  }

  // Values in the buffer.

  /** A decoded value: strings stay in the buffer. */
  datatype Slot = NoValue | TextAt(start: nat) | Number(i: int) | Real(millionths: int)

  function Read(b: seq<char>, slot: Slot): Value {
    match slot
    case NoValue => Undefined
    case TextAt(start) => StringValue(if start <= |b| then CStr(b[start..]) else "")
    case Number(i) => IntValue(i)
    case Real(m) => DoubleValue(m)
  }

  /** The string of the slot ends before position ptr. */
  ghost predicate Settled(b: seq<char>, slot: Slot, ptr: nat) {
    slot.TextAt? ==> exists k :: slot.start <= k < ptr && k < |b| && b[k] == '\0'
  }

  lemma CStrAt(b: seq<char>, start: nat, k: nat, ptr: nat)
    requires start <= k < ptr <= |b| && b[k] == '\0'
    ensures CStr(b[start..]) == CStr(b[..ptr][start..k])
  {
    hide CStr;
    CStrStops(b[start..], k - start);
    assert b[start..][..k - start] == b[..ptr][start..k];
  }

  /** Later changes do not touch it. */
  lemma ReadStays(b: seq<char>, c: seq<char>, slot: Slot, ptr: nat)
    requires Settled(b, slot, ptr) && ptr <= |b| == |c| && b[..ptr] == c[..ptr]
    ensures Settled(c, slot, ptr) && Read(c, slot) == Read(b, slot)
  {
    if slot.TextAt? {
      hide CStr;
      var k :| slot.start <= k < ptr && k < |b| && b[k] == '\0';
      assert c[..ptr][k] == c[k];
      CStrAt(b, slot.start, k, ptr);
      CStrAt(c, slot.start, k, ptr);
    }
  }

  /** The value of the field at start, the C string that ends at the NUL just written there. */
  method ReadField(data: array<char>, start: nat, length: nat, kind: FieldType) returns (slot: Slot)
    requires start + length < data.Length && data[start + length] == '\0'
    ensures Read(data[..], slot) == ValueOf(kind, data[start..start + length])
    ensures Settled(data[..], slot, start + length + 1)
  {
    ghost var token := data[start..start + length];
    assert data[..][start..] == data[start..];
    CStrStops(data[start..], length);
    assert data[start..][..length] == token;
    assert data[..][start + length] == '\0';
    slot := NoValue;
    match kind
    case TypeString =>
      if length != 0 {
        slot := TextAt(start);
      }
    case TypeInt =>
      var r := ScanInt(CStr(data[start..]));
      if r.Some? && r.value.0 > 0 {
        slot := Number(r.value.0);
      }
    case TypeDouble =>
      var r := ScanDouble(CStr(data[start..]));
      if r.Some? && r.value > 0 {
        slot := Real(r.value);
      }
  }

  /** Skips to the next separator. */
  method SkipToHash(data: array<char>, start: nat, end: nat) returns (ptr: nat)
    requires start <= end < data.Length
    ensures ptr == start + HashAt(data[start..end])
  {
    ptr := start;
    while data[ptr] != '#' && ptr < end
      invariant start <= ptr <= end
      invariant HashAt(data[start..end]) == ptr - start + HashAt(data[ptr..end])
      decreases end - ptr
    {
      assert data[ptr..end][1..] == data[ptr + 1..end];
      ptr := ptr + 1;
    }
  }

  /** The values read so far, in a buffer where everything before ptr is final. */
  ghost predicate ReadSoFar(b: seq<char>, values: seq<Slot>, vs: seq<Value>, ptr: nat) {
    && |vs| <= |values|
    && forall i :: 0 <= i < |vs| ==> Settled(b, values[i], ptr) && Read(b, values[i]) == vs[i]
  }

  lemma ReadSoFarStays(b: seq<char>, c: seq<char>, values: seq<Slot>, vs: seq<Value>, ptr: nat)
    requires ReadSoFar(b, values, vs, ptr) && ptr <= |b| == |c| && b[..ptr] == c[..ptr]
    ensures ReadSoFar(c, values, vs, ptr)
  {
    hide Settled, Read;
    forall i | 0 <= i < |vs| {
      ReadStays(b, c, values[i], ptr);
    }
  }

  lemma ReadOneMore(b: seq<char>, values: seq<Slot>, slot: Slot, vs: seq<Value>, ptr: nat, next: nat)
    requires ReadSoFar(b, values, vs, ptr) && |vs| < |values| && ptr <= next
    requires Settled(b, slot, next)
    ensures ReadSoFar(b, values[|vs| := slot], vs + [Read(b, slot)], next)
  {
    hide Read;
  }

  /** The fields of a text are its first field and those of the rest. */
  lemma FieldsStep(fields: seq<FieldDef>, text: string)
    requires |fields| > 1
    ensures var h := HashAt(text);
            FieldsOf(fields, text) ==
              if h == |text| then None
              else Prepend([ValueOf(fields[0].kind, text[..h])], FieldsOf(fields[1..], text[h + 1..]))
  {
    hide ValueOf, HashAt, Prepend;
  }

  lemma AfterOne(vs: seq<Value>, fields: seq<FieldDef>, i: nat, text: string)
    requires i + 1 < |fields|
    ensures var h := HashAt(text);
            Prepend(vs, FieldsOf(fields[i..], text)) ==
              if h == |text| then None
              else Prepend(vs + [ValueOf(fields[i].kind, text[..h])], FieldsOf(fields[i + 1..], text[h + 1..]))
  {
    hide ValueOf, HashAt, FieldsOf;
    FieldsStep(fields[i..], text);
    assert fields[i..][0] == fields[i] && fields[i..][1..] == fields[i + 1..];
    var h := HashAt(text);
    if h < |text| && FieldsOf(fields[i + 1..], text[h + 1..]).Some? {
      var v, rest := ValueOf(fields[i].kind, text[..h]), FieldsOf(fields[i + 1..], text[h + 1..]).value;
      assert vs + ([v] + rest) == (vs + [v]) + rest;
    }
  }

  lemma AfterLast(vs: seq<Value>, fields: seq<FieldDef>, i: nat, text: string)
    requires i + 1 == |fields|
    ensures Prepend(vs, FieldsOf(fields[i..], text)) == Some(vs + [ValueOf(fields[i].kind, CStr(text))])
  {
    hide ValueOf, CStr;
    assert fields[i..] == [fields[i]];
  }

  /** Ends the field at start: at the next separator, or at the end of the text for the last field. */
  method EndField(data: array<char>, start: nat, end: nat, last: bool) returns (found: bool, ptr: nat, length: nat)
    requires start <= end < data.Length
    modifies data
    ensures found <==> last || HashAt(old(data[start..end])) < end - start
    ensures found ==>
              && start + length < data.Length && data[start + length] == '\0'
              && data[start..start + length] ==
                 if last then CStr(old(data[start..end])) else old(data[start..end])[..HashAt(old(data[start..end]))]
    ensures found && last ==> ptr == end
    ensures found && !last ==>
              && ptr == start + HashAt(old(data[start..end])) + 1 == start + length + 1 <= end
              && data[ptr..end] == old(data[start..end])[ptr - start..]
    ensures data[..start] == old(data[..start])
  {
    hide HashAt, CStr;
    ghost var text := data[start..end];
    if last {
      data[end] := '\0';
      ptr := end;
      CStrStops(data[start..], end - start);
      assert data[start..][..end - start] == text;
      ghost var s := CStr(data[start..]);
      assert data[start..][|s|] == '\0' && data[start..][..|s|] == s;
      length := |CStr(data[start..])|;
      assert data[start..start + length] == s;
      found := true;
    } else {
      ptr := SkipToHash(data, start, end);
      length := ptr - start;
      if ptr >= end {
        return false, ptr, length;
      }
      data[ptr] := '\0';
      ptr := ptr + 1;
      found := true;
    }
  }

  /** The loop over the fields of a protocol. */
  method DecodeFields(data: array<char>, first: nat, end: nat, fields: seq<FieldDef>, values: array<Slot>)
    returns (ok: bool)
    requires first <= end < data.Length && |fields| <= values.Length
    modifies data, values
    ensures ok <==> FieldsOf(fields, old(data[first..end])).Some?
    ensures ok ==>
              var vs := FieldsOf(fields, old(data[first..end])).value;
              && |vs| == |fields|
              && forall i :: 0 <= i < |fields| ==> Read(data[..], values[i]) == vs[i]
    ensures forall i :: |fields| <= i < values.Length ==> values[i] == old(values[i])
  {
    hide FieldsOf, HashAt, ValueOf, CStr, Settled, Read, Prepend;
    ghost var text := data[first..end];
    ghost var vs: seq<Value> := [];
    ghost var done: nat := first;
    NothingRead(FieldsOf(fields, text));
    assert fields[0..] == fields;
    if |fields| == 0 {
      NoFieldsOf(text);
    }
    var ptr := first;
    var i := 0;
    while i < |fields|
      invariant 0 <= i == |vs| <= |fields|
      invariant i < |fields| ==> done <= ptr && first <= ptr <= end
      invariant done <= end + 1 && ReadSoFar(data[..], values[..], vs, done)
      invariant FieldsOf(fields, text) ==
                if i < |fields| then Prepend(vs, FieldsOf(fields[i..], data[ptr..end])) else Some(vs)
      invariant forall k :: |fields| <= k < values.Length ==> values[k] == old(values[k])
    {
      var start := ptr;
      ghost var was, slots, field := data[..], values[..], data[ptr..end];
      if i + 1 == |fields| {
        AfterLast(vs, fields, i, field);
      } else {
        AfterOne(vs, fields, i, field);
      }
      var found, next, length := EndField(data, start, end, i + 1 == |fields|);
      if !found {
        return false;
      }
      ptr := next;
      assert data[..][..start] == data[..start] == was[..start];
      assert done <= start;
      assert data[..][..done] == data[..][..start][..done] == was[..done];
      ReadSoFarStays(was, data[..], slots, vs, done);
      var slot := ReadField(data, start, length, fields[i].kind);
      ReadOneMore(data[..], slots, slot, vs, done, start + length + 1);
      values[i] := slot;
      assert values[..] == slots[i := slot];
      vs := vs + [Read(data[..], slot)];
      done := start + length + 1;
      i := i + 1;
    }
    ok := true;
  }

  lemma NoFieldsOf(text: string)
    ensures FieldsOf([], text) == Some([])
  {
  }

  lemma NothingRead(o: Option<seq<Value>>)
    ensures Prepend([], o) == o
  {
    assert o.Some? ==> [] + o.value == o.value;
  }

  /** The values of a message, all undefined beyond its fields. */
  function Padded(vs: seq<Value>): (r: seq<Value>)
    requires |vs| <= FIELDS_MAX
    ensures |r| == FIELDS_MAX
    ensures forall k :: 0 <= k < FIELDS_MAX ==> r[k] == if k < |vs| then vs[k] else Undefined
  {
    seq(FIELDS_MAX, k requires 0 <= k < FIELDS_MAX => if k < |vs| then vs[k] else Undefined)
  }

  ghost predicate SlotsHold(b: seq<char>, values: seq<Slot>, vs: seq<Value>) {
    |vs| == |values| && forall k :: 0 <= k < |vs| ==> Read(b, values[k]) == vs[k]
  }

  /** Moving slots moves the values they hold. */
  lemma MovedSlots(index: seq<int>, b: seq<char>, values: seq<Slot>, newValues: seq<Slot>, vs: seq<Value>)
    returns (newVs: seq<Value>)
    requires |index| <= |values| == FIELDS_MAX && Moved(index, values, newValues, NoValue) && SlotsHold(b, values, vs)
    ensures SlotsHold(b, newValues, newVs) && Moved(index, vs, newVs, Undefined)
  {
    hide Source;
    newVs := seq(FIELDS_MAX, k requires 0 <= k < FIELDS_MAX => Read(b, newValues[k]));
  }

  /** The values, moved to the fields of the first protocol, that decoding a text gives. */
  ghost predicate DecodedTo(protocols: seq<Proto>, convertIndex: seq<seq<int>>, text: string, converted: seq<Value>) {
    Decoded(protocols, text).Some? &&
    var (p, vs) := Decoded(protocols, text).value;
    && p < |protocols| && |vs| == |protocols[p].fields| <= FIELDS_MAX
    && (p == 0 ==> converted == Padded(vs))
    && (p != 0 ==> p < |convertIndex| && |convertIndex[p]| == |vs|
                   && Moved(convertIndex[p], Padded(vs), converted, Undefined))
  }

  /** infoLog_decode: the decoded values are those of the record, moved to the fields of the first protocol. */
  method Decode(data: array<char>, size: nat, table: ProtocolTable)
    returns (rc: int, values: array<Slot>, ghost converted: seq<Value>)
    requires size < data.Length && table.Valid()
    requires forall i :: 0 <= i < |table.protocols| ==> |table.protocols[i].fields| <= FIELDS_MAX
    modifies data
    ensures var d := Decoded(table.protocols, old(data[..size]));
            && (rc == 0 <==> d.Some? && (d.value.0 == 0 || table.isInit))
            && (rc == 0 ==>
                  && SlotsHold(data[..], values[..], converted)
                  && DecodedTo(table.protocols, table.convertIndex, old(data[..size]), converted))
    ensures fresh(values)
  {
    hide CStr, HashAt, FieldsOf, Read, VersionAt, Moved, WellDefined, Indexed;
    ghost var text := data[..size];
    converted := [];
    values := new Slot[FIELDS_MAX](_ => NoValue);
    if data[0] != '*' {
      return 77, values, [];
    }
    var ptr := 1;
    if ptr >= size {
      return 82, values, [];
    }
    var start := ptr;
    ptr := SkipToHash(data, start, size);
    assert data[start..size] == text[1..];
    if ptr >= size {
      return 90, values, [];
    }
    ghost var version := data[start..ptr];
    SliceOfSlice(data[..], start, ptr, size);
    data[ptr] := '\0';
    CStrStops(data[start..], ptr - start);
    SliceOfSlice(data[..], start, ptr, data.Length);
    assert data[start..ptr] == version;
    ptr := ptr + 1;
    var protoIx := FindVersion(table.protocols, CStr(data[start..]));
    if protoIx == |table.protocols| {
      return 106, values, [];
    }
    assert data[ptr..size] == text[ptr..];
    var ok := DecodeFields(data, ptr, size, table.protocols[protoIx].fields, values);
    if !ok {
      return 133, values, [];
    }
    ghost var vs := FieldsOf(table.protocols[protoIx].fields, text[ptr..]).value;
    NoValueRead(data[..]);
    assert SlotsHold(data[..], values[..], Padded(vs));
    ghost var slots := values[..];
    rc := table.Convert(protoIx, values, NoValue);
    if rc != 0 {
      return 190, values, [];
    }
    converted := Padded(vs);
    if protoIx != 0 {
      assert |table.convertIndex[protoIx]| == |vs| by {
        IndexLength(table.protocols[0].fields, table.protocols[protoIx].fields, table.convertIndex[protoIx]);
      }
      converted := MovedSlots(table.convertIndex[protoIx], data[..], slots, values[..], Padded(vs));
    }
  }

  lemma SliceOfSlice(b: seq<char>, i: nat, j: nat, k: nat)
    requires i <= j <= k <= |b|
    ensures b[i..k][..j - i] == b[i..j] && (k == |b| ==> b[i..][..j - i] == b[i..j])
  {
  }

  lemma NoValueRead(b: seq<char>)
    ensures Read(b, NoValue) == Undefined
  {
  }

  lemma IndexLength(ref: seq<FieldDef>, fields: seq<FieldDef>, index: seq<int>)
    requires Indexed(ref, fields, index)
    ensures |index| == |fields|
  {
  }

  method FindVersion(protocols: seq<Proto>, version: string) returns (p: nat)
    ensures p == VersionAt(protocols, version)
  {
    p := 0;
    while p < |protocols|
      invariant 0 <= p <= |protocols|
      invariant VersionAt(protocols, version) == p + VersionAt(protocols[p..], version)
    {
      if version == protocols[p].version {
        return;
      }
      assert protocols[p..][1..] == protocols[p + 1..];
      p := p + 1;
    }
  }

  /** The value of the field f among those of another protocol. */
  function ByName(fields: seq<FieldDef>, vs: seq<Value>, f: FieldDef): Value
    requires |fields| == |vs|
  {
    if fields == [] then Undefined else if fields[0] == f then vs[0] else ByName(fields[1..], vs[1..], f)
  }

  lemma {:induction false} ByNameAt(fields: seq<FieldDef>, vs: seq<Value>, f: FieldDef, j: int)
    requires |fields| == |vs| && Distinct(fields)
    requires if f in fields then 0 <= j < |fields| && fields[j] == f else j == -1
    ensures ByName(fields, vs, f) == if j < 0 then Undefined else vs[j]
  {
    if fields != [] && fields[0] != f {
      ByNameAt(fields[1..], vs[1..], f, if j < 0 then j else j - 1);
    }
  }

  /** Conversion keeps each value whose field exists, by name and type, in the first protocol, drops the others, and
      leaves the other fields undefined. */
  lemma ConvertedValues(ref: seq<FieldDef>, fields: seq<FieldDef>, index: seq<int>, vs: seq<Value>, out: seq<Value>,
      k: nat)
    requires Distinct(ref) && Distinct(fields) && Indexed(ref, fields, index) && k < |ref| <= FIELDS_MAX
    requires |vs| == |fields| <= FIELDS_MAX && Moved(index, Padded(vs), out, Undefined)
    ensures out[k] == ByName(fields, vs, ref[k])
  {
    hide Source, Indexed, Distinct;
    ConvertedByName(ref, fields, index, k);
    ByNameAt(fields, vs, ref[k], Source(index, k));
  }
}
