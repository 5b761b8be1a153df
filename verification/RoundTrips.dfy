/** Decoding what was encoded. */
module RoundTrips {
  import opened Codec
  import opened Decoders
  import opened Options
  import opened ProtocolTables
  import opened RecordTexts
  import opened Text
  import opened TextLines

  /** What remains of a value: special characters become '?', empty strings and numbers that are not positive become
      undefined. */
  function Normal(v: Value): Value {
    match v
    case Undefined => Undefined
    case StringValue(s) => if s == "" then Undefined else StringValue(Sanitize(s))
    case IntValue(i) => if i > 0 then v else Undefined
    case DoubleValue(m) => if m > 0 then v else Undefined
  }

  function Normals(vs: seq<Value>): (r: seq<Value>)
    ensures |r| == |vs| && forall k :: 0 <= k < |vs| ==> r[k] == Normal(vs[k])
  {
    seq(|vs|, k requires 0 <= k < |vs| => Normal(vs[k]))
  }

  /** Nothing, or something a C string does not show. */
  predicate Hidden(after: string) {
    after != "" ==> after[0] == '\0'
  }

  lemma ValueOfText(f: FieldDef, v: Value, after: string)
    requires Fits(f, v) && Hidden(after)
    ensures ValueOf(f.kind, FieldText(v)) == Normal(v) && CStr(FieldText(v) + after) == FieldText(v)
  {
    hide PrintInt, PrintDouble, ScanInt, ScanDouble, CStr;
    FieldTextIsPlain(f, v);
    CStrOfText(FieldText(v), after);
    CStrOfText(FieldText(v), "");
    assert FieldText(v) + "" == FieldText(v);
    match v
    case Undefined =>
      NothingToScan();
    case IntValue(i) =>
      ScanPrintedInt(i, "");
      assert PrintInt(i) + "" == PrintInt(i);
    case DoubleValue(m) =>
      ScanPrintedDouble(m);
    case StringValue(_) =>
  }

  lemma NothingToScan()
    ensures ScanInt("") == None && ScanDouble("") == None
  {
  }

  lemma {:induction false} HashAfter(s: string, t: string)
    requires '#' !in s && t != "" && t[0] == '#'
    ensures HashAt(s + t) == |s|
  {
    if s == "" {
      assert s + t == t;
    } else {
      assert (s + t)[1..] == s[1..] + t;
      HashAfter(s[1..], t);
    }
  }

  lemma OneField(fields: seq<FieldDef>, text: string)
    requires |fields| == 1
    ensures FieldsOf(fields, text) == Some([ValueOf(fields[0].kind, CStr(text))])
  {
    hide ValueOf, CStr;
  }

  lemma FieldsTextStarts(vs: seq<Value>)
    requires vs != []
    ensures var t := FieldsText(vs);
            t != "" && t[0] == '#' && t[1..] == FieldText(vs[0]) + FieldsText(vs[1..])
    ensures |vs| == 1 ==> FieldsText(vs)[1..] == FieldText(vs[0])
  {
    hide FieldText, FieldsText;
    FieldsTextUnfolds(vs);
    var first, rest := FieldText(vs[0]), FieldsText(vs[1..]);
    assert "#" + first + rest == "#" + (first + rest);
    if |vs| == 1 {
      assert vs[1..] == [];
      assert first + rest == first;
    }
  }

  lemma FieldsTextUnfolds(vs: seq<Value>)
    requires vs != []
    ensures FieldsText(vs) == "#" + FieldText(vs[0]) + FieldsText(vs[1..]) && FieldsText([]) == ""
  {
    hide FieldText;
  }

  /** The fields of a record are decoded one by one. */
  lemma {:induction false} DecodeFieldsText(fields: seq<FieldDef>, vs: seq<Value>, after: string)
    requires |fields| == |vs| > 0 && Hidden(after) && forall i :: 0 <= i < |vs| ==> Fits(fields[i], vs[i])
    ensures FieldsText(vs) != "" && FieldsOf(fields, FieldsText(vs)[1..] + after) == Some(Normals(vs))
    decreases |vs|
  {
    hide FieldsOf, FieldsText, FieldText, ValueOf, CStr, HashAt, Normal, Fits;
    FieldsTextStarts(vs);
    ValueOfText(fields[0], vs[0], after);
    var text := FieldsText(vs)[1..] + after;
    if |vs| == 1 {
      OneField(fields, text);
      assert Normals(vs) == [Normal(vs[0])];
    } else {
      FieldTextIsPlain(fields[0], vs[0]);
      FieldsTextStarts(vs[1..]);
      var first, rest := FieldText(vs[0]), FieldsText(vs[1..]) + after;
      assert text == first + rest;
      HashAfter(first, rest);
      FieldsStep(fields, text);
      assert text[..|first|] == first && text[|first| + 1..] == FieldsText(vs[1..])[1..] + after;
      DecodeFieldsText(fields[1..], vs[1..], after);
      assert Normals(vs) == [Normal(vs[0])] + Normals(vs[1..]);
    }
  }

  /** Versions can be told apart in a record. */
  predicate VersionsOk(protocols: seq<Proto>) {
    && (forall i :: 0 <= i < |protocols| ==> IsPlain(protocols[i].version) && protocols[i].fields != [])
    && forall i, j :: 0 <= i < j < |protocols| ==> protocols[i].version != protocols[j].version
  }

  /** Decoding a record, without its newline, gives the protocol and the normalised values. */
  lemma DecodeRecord(protocols: seq<Proto>, p: nat, vs: seq<Value>, after: string)
    requires p < |protocols| && VersionsOk(protocols) && Message(protocols[p], vs).Ok() && Hidden(after)
    ensures Decoded(protocols, Opened(protocols[p], vs) + after) == Some((p, Normals(vs)))
  {
    hide FieldsOf, FieldsText, FieldText, CStr, HashAt, Normals, VersionAt, Fits;
    var version := protocols[p].version;
    var text := Opened(protocols[p], vs) + after;
    FieldsTextStarts(vs);
    var rest := FieldsText(vs) + after;
    assert text[1..] == version + rest;
    HashAfter(version, rest);
    CStrOfText(version, "");
    assert version + "" == version;
    assert text[1..][..|version|] == version;
    assert VersionAt(protocols, version) == p;
    assert text[|version| + 2..] == FieldsText(vs)[1..] + after;
    DecodeFieldsText(protocols[p].fields, vs, after);
  }

  /** A successful encoding has one line per record, and decoding line k, stored with a
      NUL as a client stores it, gives the normalised values of record k. */
  lemma DecodeEncoded(protocols: seq<Proto>, p: nat, msg: Message, split: int, size: nat)
    requires p < |protocols| && VersionsOk(protocols) && msg.proto == protocols[p] && msg.Ok() && size > 0
    requires -1 <= split < |msg.values| && (split >= 0 ==> msg.proto.fields[split].kind.TypeString?)
    ensures var rs := RecordValues(msg.values, split);
            var e := EncodeFrom(msg.proto, rs, "", size);
            e.Done? ==>
              && Tail(e.text) == "" && |Lines(e.text)| == |rs|
              && forall k :: 0 <= k < |rs| ==> Decoded(protocols, Lines(e.text)[k] + "\0") == Some((p, Normals(rs[k])))
  {
    hide EncodeFrom, Records, RecordValues, Lines, Tail, Decoded, Opened, Normals;
    var rs := RecordValues(msg.values, split);
    RecordsFit(msg, split);
    DoneIff(msg.proto, rs, size);
    OneRecordPerLine(msg.proto, rs);
    forall k | 0 <= k < |rs|
      ensures Decoded(protocols, Opened(msg.proto, rs[k]) + "\0") == Some((p, Normals(rs[k])))
    {
      DecodeRecord(protocols, p, rs[k], "\0");
    }
  }

  /** The whole way: for a ready table whose protocols have distinct field names, decoding line k of a successful encoding
      gives, in each field of the first protocol, the normalised value that record k has in the field of the same name
      and type, or nothing. */
  lemma DecodeConverted(table: ProtocolTable, p: nat, msg: Message, split: int, size: nat, k: nat, converted: seq<Value>,
      j: nat)
    requires table.Valid() && table.isInit && p < |table.protocols| && VersionsOk(table.protocols)
    requires forall i :: 0 <= i < |table.protocols| ==> Distinct(table.protocols[i].fields)
    requires msg.proto == table.protocols[p] && msg.Ok() && size > 0
    requires -1 <= split < |msg.values| && (split >= 0 ==> msg.proto.fields[split].kind.TypeString?)
    requires var e := EncodeFrom(msg.proto, RecordValues(msg.values, split), "", size);
             && e.Done? && k < |Lines(e.text)|
             && DecodedTo(table.protocols, table.convertIndex, Lines(e.text)[k] + "\0", converted)
    requires j < |table.protocols[0].fields|
    ensures k < |RecordValues(msg.values, split)| && |RecordValues(msg.values, split)[k]| == |msg.proto.fields|
    ensures j < |converted|
    ensures converted[j]
            == ByName(msg.proto.fields, Normals(RecordValues(msg.values, split)[k]), table.protocols[0].fields[j])
  {
    hide EncodeFrom, RecordValues, Lines, Decoded, Moved, Distinct, Indexed, VersionsOk, Padded, ByName;
    DecodeEncoded(table.protocols, p, msg, split, size);
    RecordsFit(msg, split);
    var vs := RecordValues(msg.values, split)[k];
    assert Message(msg.proto, vs).Ok();
    var ref := table.protocols[0].fields;
    assert WellDefined(table.protocols[0]);
    if p == 0 {
      FieldOfItself(ref, Normals(vs), j);
    } else {
      ConvertedValues(ref, msg.proto.fields, table.convertIndex[p], Normals(vs), converted, j);
      MovedLength(table.convertIndex[p], Padded(Normals(vs)), converted);
    }
  }

  lemma MovedLength(index: seq<int>, values: seq<Value>, newValues: seq<Value>)
    requires |index| <= |values| && Moved(index, values, newValues, Undefined)
    ensures |newValues| == FIELDS_MAX
  {
  }

  lemma FieldOfItself(ref: seq<FieldDef>, vs: seq<Value>, j: nat)
    requires |vs| == |ref| <= FIELDS_MAX && Distinct(ref) && j < |ref|
    ensures Padded(vs)[j] == vs[j] == ByName(ref, vs, ref[j])
  {
    ByNameAt(ref, vs, ref[j], j);
  }
}
