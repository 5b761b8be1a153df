/** The table of message protocols of src/infoLoggerMessage.c and the conversion of messages to its first protocol. */
module ProtocolTables {
  import opened Codec

  /** INFOLOG_FIELDS_MAX */
  const FIELDS_MAX := 18

  /** k is the first field that has the type and the name of f, or -1 if there is none. */
  predicate IsMatch(ref: seq<FieldDef>, f: FieldDef, k: int) {
    if k == -1 then f !in ref else 0 <= k < |ref| && ref[k] == f && f !in ref[..k]
  }

  /** What infoLog_proto_init checks of a protocol. */
  predicate WellDefined(p: Proto) {
    0 < |p.fields| <= FIELDS_MAX && p.fields[|p.fields| - 1] == FieldDef(TypeString, "message")
  }

  /** index sends each field to its match. */
  predicate Indexed(ref: seq<FieldDef>, fields: seq<FieldDef>, index: seq<int>) {
    |index| == |fields| && forall j :: 0 <= j < |fields| ==> IsMatch(ref, fields[j], index[j])
  }

  method FindMatch(ref: seq<FieldDef>, f: FieldDef) returns (k: int)
    ensures IsMatch(ref, f, k)
  {
    k := 0;
    while k < |ref|
      invariant 0 <= k <= |ref| && f !in ref[..k]
    {
      if ref[k].kind == f.kind && ref[k].name == f.name {
        return;
      }
      k := k + 1;
    }
    k := -1;
  }

  /** The conversion table of the fields of a protocol. */
  method ConvertTable(ref: seq<FieldDef>, fields: seq<FieldDef>) returns (index: seq<int>)
    ensures Indexed(ref, fields, index)
  {
    hide IsMatch;
    index := [];
    var j := 0;
    while j < |fields|
      invariant 0 <= j == |index| <= |fields|
      invariant forall l :: 0 <= l < j ==> IsMatch(ref, fields[l], index[l])
    {
      var k := FindMatch(ref, fields[j]);
      index := index + [k];
      j := j + 1;
    }
  }

  method Check(p: Proto) returns (rc: int)
    ensures rc == 0 <==> WellDefined(p)
  {
    if |p.fields| <= 0 {
      return 370;
    }
    if |p.fields| > FIELDS_MAX {
      return 373;
    }
    if !p.fields[|p.fields| - 1].kind.TypeString? {
      return 386;
    }
    if p.fields[|p.fields| - 1].name != "message" {
      return 389;
    }
    rc := 0;
  }

  class ProtocolTable {
    const protocols: seq<Proto>
    var convertIndex: seq<seq<int>>
    var isInit: bool

    ghost predicate Valid()
      reads this
    {
      && protocols != []
      && (isInit ==>
            && |convertIndex| == |protocols|
            && forall i :: 0 <= i < |protocols| ==>
                 WellDefined(protocols[i]) && Indexed(protocols[0].fields, protocols[i].fields, convertIndex[i]))
    }

    constructor (protocols: seq<Proto>)
      requires protocols != []
      ensures Valid() && this.protocols == protocols && !isInit
    {
      this.protocols := protocols;
      convertIndex, isInit := [], false;
    }

    /** infoLog_proto_init: the table is ready exactly when every protocol is well defined. */
    method Init() returns (rc: int)
      requires Valid() && !isInit
      modifies this
      ensures Valid() && (rc == 0 <==> isInit)
      ensures isInit <==> forall i :: 0 <= i < |protocols| ==>
                            && 1 <= |protocols[i].fields| <= FIELDS_MAX
                            && protocols[i].fields[|protocols[i].fields| - 1].kind == TypeString
                            && protocols[i].fields[|protocols[i].fields| - 1].name == "message"
    {
      hide Indexed;
      convertIndex := [];
      var i := 0;
      while i < |protocols|
        invariant 0 <= i == |convertIndex| <= |protocols| && !isInit
        invariant forall k :: 0 <= k < i ==>
                    WellDefined(protocols[k]) && Indexed(protocols[0].fields, protocols[k].fields, convertIndex[k])
      {
        rc := Check(protocols[i]);
        if rc != 0 {
          return;
        }
        var index := ConvertTable(protocols[0].fields, protocols[i].fields);
        convertIndex := convertIndex + [index];
        i := i + 1;
      }
      isInit := true;
      rc := 0;
    }

    /** infoLog_msg_convert, on the values of a message of protocol number protoIx. */
    method Convert<T>(protoIx: nat, values: array<T>, undefined: T) returns (rc: int)
      requires Valid() && protoIx < |protocols| && values.Length == FIELDS_MAX
      modifies values
      ensures rc == 0 <==> protoIx == 0 || isInit
      ensures protoIx == 0 || rc != 0 ==> values[..] == old(values[..])
      ensures protoIx != 0 && rc == 0 ==>
                && Indexed(protocols[0].fields, protocols[protoIx].fields, convertIndex[protoIx])
                && |convertIndex[protoIx]| <= FIELDS_MAX
                && Moved(convertIndex[protoIx], old(values[..]), values[..], undefined)
    {
      hide IsMatch, WellDefined, Source, Moved, Indexed;
      if protoIx == 0 {
        return 0;
      }
      if !isInit {
        return 430;
      }
      var n := |protocols[protoIx].fields|;
      var index := convertIndex[protoIx];
      IndexBounds(protocols[0], protocols[protoIx], index);
      var newValues := new T[FIELDS_MAX](_ => undefined);
      var i := 0;
      NothingMoved(index[..0], values[..], newValues[..], undefined);
      while i < n
        invariant 0 <= i <= n && values[..] == old(values[..])
        invariant Moved(index[..i], values[..], newValues[..], undefined)
      {
        ghost var was := newValues[..];
        if index[i] != -1 {
          newValues[index[i]] := values[i];
          assert newValues[..] == was[index[i] := values[i]];
        }
        MovedOne(index, i, values[..], was, undefined);
        i := i + 1;
      }
      assert index[..n] == index;
      ghost var moved := newValues[..];
      forall k | 0 <= k < FIELDS_MAX {
        values[k] := newValues[k];
      }
      assert values[..] == moved;
      rc := 0;
    }
  }

  lemma IndexBounds(ref: Proto, p: Proto, index: seq<int>)
    requires WellDefined(ref) && WellDefined(p) && Indexed(ref.fields, p.fields, index)
    ensures |index| == |p.fields| <= FIELDS_MAX
    ensures forall j :: 0 <= j < |index| ==> -1 <= index[j] < FIELDS_MAX
  {
    assert forall j :: 0 <= j < |index| ==> IsMatch(ref.fields, p.fields[j], index[j]);
  }

  /** Each new value is the last one sent there. */
  ghost predicate Moved<T>(index: seq<int>, values: seq<T>, newValues: seq<T>, undefined: T)
    requires |index| <= |values|
  {
    && |newValues| == FIELDS_MAX
    && forall k :: 0 <= k < FIELDS_MAX ==>
         newValues[k] == var j := Source(index, k); if j < 0 then undefined else values[j]
  }

  lemma NothingMoved<T>(index: seq<int>, values: seq<T>, newValues: seq<T>, undefined: T)
    requires index == [] && |newValues| == FIELDS_MAX
    requires forall k :: 0 <= k < FIELDS_MAX ==> newValues[k] == undefined
    ensures Moved(index, values, newValues, undefined)
  {
  }

  lemma MovedOne<T>(index: seq<int>, i: nat, values: seq<T>, newValues: seq<T>, undefined: T)
    requires i < |index| <= |values| && -1 <= index[i] < FIELDS_MAX
    requires Moved(index[..i], values, newValues, undefined)
    ensures Moved(index[..i + 1], values, if index[i] == -1 then newValues else newValues[index[i] := values[i]], undefined)
  {
    hide Source;
    forall k {
      SourceGrows(index, i, k);
    }
  }

  /** The last position that is sent to k, or -1. */
  function Source(index: seq<int>, k: int): (j: int)
    ensures -1 <= j < |index|
    ensures j >= 0 ==> index[j] == k && k !in index[j + 1..]
    ensures j < 0 ==> k !in index
  {
    if index == [] then -1
    else if index[|index| - 1] == k then |index| - 1
    else
      var j := Source(index[..|index| - 1], k);
      assert j >= 0 ==> index[j + 1..] == index[..|index| - 1][j + 1..] + [index[|index| - 1]];
      j
  }

  lemma SourceGrows(index: seq<int>, i: nat, k: int)
    requires i < |index|
    ensures Source(index[..i + 1], k) == if index[i] == k then i else Source(index[..i], k)
  {
    assert index[..i + 1][..i] == index[..i];
  }

  predicate Distinct(fields: seq<FieldDef>) {
    forall i, j :: 0 <= i < j < |fields| ==> fields[i].name != fields[j].name
  }

  /** With distinct names, each converted value is that of the field of the same name and type, if there is one. */
  lemma ConvertedByName(ref: seq<FieldDef>, fields: seq<FieldDef>, index: seq<int>, k: nat)
    requires Distinct(ref) && Distinct(fields) && Indexed(ref, fields, index) && k < |ref|
    ensures var j := Source(index, k);
            if ref[k] in fields then 0 <= j < |fields| && fields[j] == ref[k] else j == -1
  {
    forall i | 0 <= i < |fields|
      ensures index[i] == k <==> fields[i] == ref[k]
    {
      assert IsMatch(ref, fields[i], index[i]);
    }
  }
}
