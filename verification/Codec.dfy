/** The log messages of src/infoLoggerMessage.c and their text form: records that start with '*' and the protocol
    version, with one '#' before each field. Doubles are counted in millionths, the precision of "%lf". */
module Codec {
  import opened Options
  import opened Sequences
  import opened Text
  import opened TextLines

  datatype FieldType = TypeString | TypeInt | TypeDouble

  datatype FieldDef = FieldDef(kind: FieldType, name: string)

  datatype Proto = Proto(version: string, fields: seq<FieldDef>)

  datatype Value = Undefined | StringValue(s: string) | IntValue(i: int) | DoubleValue(millionths: int)

  /** A message of a protocol; the kind of a defined value is the type of its field. */
  datatype Message = Message(proto: Proto, values: seq<Value>) {
    predicate Ok() {
      && |values| == |proto.fields|
      && '\0' !in proto.version
      && forall i :: 0 <= i < |values| ==> Fits(proto.fields[i], values[i])
    }
  }

  /** Strings are C strings: they hold no NUL. */
  predicate Fits(f: FieldDef, v: Value) {
    match v
    case Undefined => true
    case StringValue(s) => f.kind.TypeString? && '\0' !in s
    case IntValue(_) => f.kind.TypeInt?
    case DoubleValue(_) => f.kind.TypeDouble?
  }

  function SafeChar(c: char): char {
    if c == '*' || c == '#' || c == '\n' then '?' else c
  }

  /** Special characters become '?'. */
  function Sanitize(s: string): (r: string)
    ensures |r| == |s| && forall i :: 0 <= i < |s| ==> r[i] == SafeChar(s[i])
  {
    seq(|s|, i requires 0 <= i < |s| => SafeChar(s[i]))
  }

  /** The text of a field. */
  function FieldText(v: Value): string {
    match v
    case Undefined => ""
    case StringValue(s) => Sanitize(s)
    case IntValue(i) => PrintInt(i)
    case DoubleValue(m) => PrintDouble(m)
  }

  /** Without the characters that separate lines and fields or end a C string. */
  predicate IsPlain(s: string) {
    '#' !in s && '\n' !in s && '\0' !in s
  }

  lemma NumbersArePlain(n: nat, k: nat)
    ensures IsPlain(PrintNat(n)) && IsPlain(Digits(n, k)) && IsPlain(PrintFixed(n))
  {
    var s := Digits(n % 1000000, 6);
    assert forall i :: 0 <= i < |s| ==> IsDigit(s[i]);
  }

  lemma FieldTextIsPlain(f: FieldDef, v: Value)
    requires Fits(f, v)
    ensures IsPlain(FieldText(v))
  {
    match v
    case IntValue(i) => NumbersArePlain(if i < 0 then -i else i, 0);
    case DoubleValue(m) => NumbersArePlain(if m < 0 then -m else m, 0);
    case _ =>
  }

  /** The fields of a record, each after its '#'. */
  function FieldsText(vs: seq<Value>): string {
    if vs == [] then "" else "#" + FieldText(vs[0]) + FieldsText(vs[1..])
  }

  lemma {:induction false} FieldsTextAppend(vs: seq<Value>, v: Value)
    ensures FieldsText(vs + [v]) == FieldsText(vs) + ("#" + FieldText(v))
  {
    if vs == [] {
      assert [v][1..] == [];
      assert FieldsText([v]) == "#" + FieldText(v) + FieldsText([]);
    } else {
      assert (vs + [v])[1..] == vs[1..] + [v];
      FieldsTextAppend(vs[1..], v);
    }
  }

  /** A record without its final newline. */
  function Opened(proto: Proto, vs: seq<Value>): string {
    "*" + proto.version + FieldsText(vs)
  }

  function Record(proto: Proto, vs: seq<Value>): string {
    Opened(proto, vs) + "\n"
  }

  /** All the lines of a text, the last one included; there is always at least one. */
  function SplitLines(s: string): (ls: seq<string>)
    ensures ls != []
  {
    Lines(s) + [Tail(s)]
  }

  lemma SplitStep(s: string)
    ensures var n := Newline(s);
            if n == |s| then SplitLines(s) == [s] else SplitLines(s) == [s[..n]] + SplitLines(s[n + 1..])
  {
    hide Lines, Tail, Newline;
    FirstLine(s);
    var n := Newline(s);
    if n < |s| {
      Associate([s[..n]], Lines(s[n + 1..]), [Tail(s)]);
    }
  }

  /** The values of each record: one per line of the split field, if there is one and it is defined. */
  function RecordValues(values: seq<Value>, split: int): (rs: seq<seq<Value>>)
    requires -1 <= split < |values|
    requires split >= 0 ==> values[split].Undefined? || values[split].StringValue?
    ensures rs != []
  {
    if split == -1 || values[split].Undefined? then [values]
    else
      var ls := SplitLines(values[split].s);
      seq(|ls|, i requires 0 <= i < |ls| => values[split := StringValue(ls[i])])
  }

  function Records(proto: Proto, rs: seq<seq<Value>>): string {
    if rs == [] then "" else Record(proto, rs[0]) + Records(proto, rs[1..])
  }

  /** The mark of a truncated text. */
  const MARK := " [...]\n"

  datatype Encoded = Done(text: string) | Cut(text: string) | Failed

  predicate LastIsString(vs: seq<Value>) {
    vs != [] && vs[|vs| - 1].StringValue?
  }

  /** The part of a record before the text of its last field. */
  function Head(proto: Proto, vs: seq<Value>): string
    requires vs != []
  {
    Opened(proto, vs[..|vs| - 1]) + "#"
  }

  /** The text does not fit in `size` bytes, or leaves no room for a mark when more records follow. */
  predicate TooLong(text: string, more: bool, size: nat) {
    |text| >= size || (more && |text| + |MARK| + 1 > size)
  }

  /** The text `before` of complete records followed by a record that is too long: cut in the last field of that
      record, or else marked as cut after the last complete record. */
  function CutRecord(proto: Proto, vs: seq<Value>, before: string, size: nat): (r: Encoded)
    ensures !r.Done?
  {
    if LastIsString(vs) && |before + Head(proto, vs)| + |MARK| + 1 <= size
      then var text := before + Record(proto, vs);
           if |text| + |MARK| + 1 > size then Cut(text[..size - |MARK| - 1] + MARK) else Failed
    else if before != [] then Cut(before[..|before| - 1] + MARK)
    else Failed
  }

  /** What a buffer of `size` bytes receives after the text `before` of complete records. */
  function EncodeFrom(proto: Proto, rs: seq<seq<Value>>, before: string, size: nat): Encoded
    requires rs != [] && size > 0
    decreases |rs|
  {
    var text := before + Record(proto, rs[0]);
    if TooLong(text, |rs| > 1, size) then CutRecord(proto, rs[0], before, size)
    else if |rs| == 1 then Done(text)
    else EncodeFrom(proto, rs[1..], text, size)
  }
}
