/** What decoding gives, said of the text and of the message alone: for records of any writer, and for the records that
    infoLog_msg_encode writes. */
module DecodedRecords {
  import opened Codec
  import opened Decoders
  import opened Options
  import opened ProtocolTables
  import opened RecordTexts
  import opened RoundTrips
  import opened Sequences
  import opened Text
  import opened TextLines

  // Records of any writer.

  /** The tokens with a separator between them. */
  function Joined(tokens: seq<string>, separator: char): string {
    if tokens == [] then ""
    else if |tokens| == 1 then tokens[0]
    else tokens[0] + ([separator] + Joined(tokens[1..], separator))
  }

  /** The tokens hold no separator. */
  predicate AreTokens(tokens: seq<string>, separator: char) {
    tokens != [] && forall i :: 0 <= i < |tokens| ==> separator !in tokens[i]
  }

  /** The fields of a protocol are the first tokens, but for the last field, which is everything from its token on, up to a
      NUL; there must be as many tokens as fields. */
  predicate FieldsAre(fields: seq<FieldDef>, tokens: seq<string>, vs: Option<seq<Value>>) {
    var n := |fields|;
    && 0 < n
    && if |tokens| < n then vs == None
       else
         && vs.Some? && |vs.value| == n
         && (forall i :: 0 <= i < n - 1 ==> vs.value[i] == ValueOf(fields[i].kind, tokens[i]))
         && vs.value[n - 1] == ValueOf(fields[n - 1].kind, CStr(Joined(tokens[n - 1..], '#')))
  }

  lemma {:induction false} FieldsOfTokens(fields: seq<FieldDef>, tokens: seq<string>)
    requires fields != [] && AreTokens(tokens, '#')
    ensures FieldsAre(fields, tokens, FieldsOf(fields, Joined(tokens, '#')))
    decreases |fields|
  {
    hide FieldsOf, ValueOf, CStr, HashAt;
    var text := Joined(tokens, '#');
    if |fields| == 1 {
      OneField(fields, text);
      assert tokens[0..] == tokens;
    } else {
      FieldsStep(fields, text);
      if |tokens| == 1 {
        HashNowhere(text);
      } else {
        var rest := "#" + Joined(tokens[1..], '#');
        HashAfter(tokens[0], rest);
        assert text[..|tokens[0]|] == tokens[0] && text[|tokens[0]| + 1..] == Joined(tokens[1..], '#');
        FieldsOfTokens(fields[1..], tokens[1..]);
        assert |tokens| >= |fields| ==> tokens[1..][|fields| - 2..] == tokens[|fields| - 1..];
      }
    }
  }

  lemma {:induction false} HashNowhere(s: string)
    requires '#' !in s
    ensures HashAt(s) == |s|
  {
    if s != "" {
      HashNowhere(s[1..]);
    }
  }

  /** A record of any writer: its version, and what follows in tokens, are understood exactly when the version is that of
      a protocol and there are as many tokens as this protocol has fields. */
  lemma DecodedTokens(protocols: seq<Proto>, version: string, tokens: seq<string>, p: nat)
    requires '#' !in version && AreTokens(tokens, '#')
    requires p <= |protocols| && forall i :: 0 <= i < p ==> protocols[i].version != CStr(version)
    requires p < |protocols| ==> protocols[p].version == CStr(version) && protocols[p].fields != []
    ensures var d := Decoded(protocols, "*" + version + ("#" + Joined(tokens, '#')));
            if p == |protocols| || |tokens| < |protocols[p].fields| then d == None
            else d.Some? && d.value.0 == p && FieldsAre(protocols[p].fields, tokens, Some(d.value.1))
  {
    hide FieldsOf, ValueOf, CStr, HashAt, VersionAt, Joined, Decoded, FieldsAre;
    VersionIs(protocols, CStr(version), p);
    DecodedParts(protocols, version, Joined(tokens, '#'));
    if p < |protocols| {
      FieldsOfTokens(protocols[p].fields, tokens);
      NoneAreFields(protocols[p].fields, tokens);
    }
  }

  lemma NoneAreFields(fields: seq<FieldDef>, tokens: seq<string>)
    ensures forall vs :: FieldsAre(fields, tokens, vs) ==> (vs.None? <==> |tokens| < |fields|)
  {
  }

  lemma VersionIs(protocols: seq<Proto>, version: string, p: nat)
    requires p <= |protocols| && forall i :: 0 <= i < p ==> protocols[i].version != version
    requires p < |protocols| ==> protocols[p].version == version
    ensures VersionAt(protocols, version) == p
  {
    hide VersionAt;
  }

  /** The version ends at the first separator. */
  lemma DecodedParts(protocols: seq<Proto>, version: string, fields: string)
    requires '#' !in version
    ensures var p := VersionAt(protocols, CStr(version));
            Decoded(protocols, "*" + version + ("#" + fields)) ==
              if p == |protocols| then None
              else
                match FieldsOf(protocols[p].fields, fields)
                case Some(vs) => Some((p, vs))
                case None => None
  {
    hide FieldsOf, CStr, HashAt, VersionAt;
    var rest := "#" + fields;
    var text := "*" + version + rest;
    assert text[1..] == version + rest && text[1..][..|version|] == version;
    HashAfter(version, rest);
    assert text[|version| + 2..] == fields;
  }

  /** Anything else is no record. */
  lemma NoRecordIn(protocols: seq<Proto>, text: string)
    requires text == "" || text[0] != '*' || '#' !in text
    ensures Decoded(protocols, text) == None
  {
    if text != "" {
      HashNowhereElse(text);
    }
  }

  lemma HashNowhereElse(text: string)
    requires text != ""
    ensures '#' !in text ==> HashAt(text[1..]) == |text| - 1
  {
    if '#' !in text {
      HashNowhere(text[1..]);
    }
  }

  /** What the tokens stand for: a string is itself, unless it is empty; a number is the one at the start of the token,
      unless it is not positive. */
  lemma TokenValues(s: string, i: int, whole: nat, k: nat, n: nat, point: bool, rest: string)
    requires '\0' !in s && '\0' !in rest && k <= 6 && n < Pow10(k) && (k > 0 ==> point)
    requires rest != "" ==> !IsDigit(rest[0]) && (point || rest[0] != '.')
    ensures ValueOf(TypeString, s) == if s == "" then Undefined else StringValue(s)
    ensures ValueOf(TypeInt, PrintInt(i) + rest) == if i > 0 then IntValue(i) else Undefined
    ensures var m := whole * 1000000 + n * Pow10(6 - k);
            ValueOf(TypeDouble, PrintNat(whole) + ((if point then "." + Digits(n, k) else "") + rest))
            == if m > 0 then DoubleValue(m) else Undefined
  {
    hide ScanInt, ScanDouble, CStr, PrintInt, PrintNat, Digits, Pow10;
    assert s + "" == s;
    CStrOfText(s, "");
    PlainInt(i);
    CStrOfText(PrintInt(i) + rest, "");
    assert PrintInt(i) + rest + "" == PrintInt(i) + rest;
    ScanPrintedInt(i, rest);
    var number := PrintNat(whole) + ((if point then "." + Digits(n, k) else "") + rest);
    NumbersArePlain(whole, 0);
    NumbersArePlain(n, k);
    assert '\0' !in number;
    assert number + "" == number;
    CStrOfText(number, "");
    ScanDecimal(false, whole, k, n, point, rest);
    assert "" + number == number;
  }

  lemma PlainInt(i: int)
    ensures IsPlain(PrintInt(i))
  {
    NumbersArePlain(if i < 0 then -i else i, 0);
  }

  // Records of infoLog_msg_encode.

  /** The decoded value d shows the value v of a message: strings have lost their special characters, and an empty string or
      a number that is not positive counts as undefined. */
  predicate Shows(v: Value, d: Value) {
    match v
    case Undefined => d == Undefined
    case StringValue(s) =>
      if s == "" then d == Undefined
      else
        && d.StringValue? && |d.s| == |s|
        && forall i :: 0 <= i < |s| ==>
             if s[i] == '*' || s[i] == '#' || s[i] == '\n' then d.s[i] == '?' else d.s[i] == s[i]
    case IntValue(i) => if i > 0 then d == IntValue(i) else d == Undefined
    case DoubleValue(m) => if m > 0 then d == DoubleValue(m) else d == Undefined
  }

  lemma NormalShows(v: Value)
    ensures Shows(v, Normal(v))
  {
  }

  lemma {:induction false} LinesJoined(s: string)
    ensures AreTokens(SplitLines(s), '\n') && Joined(SplitLines(s), '\n') == s
    decreases |s|
  {
    hide SplitLines, Newline;
    SplitStep(s);
    var n := Newline(s);
    if n < |s| {
      LinesJoined(s[n + 1..]);
      assert SplitLines(s)[1..] == SplitLines(s[n + 1..]);
      assert s == s[..n] + (['\n'] + s[n + 1..]);
    } else {
      assert s[..n] == s;
    }
  }

  /** The values of record k of a message, of which one field may be split into its lines. */
  ghost predicate IsRecord(msg: Message, split: int, lines: seq<string>, k: nat, vs: seq<Value>)
    requires -1 <= split < |msg.values|
  {
    && |vs| == |msg.values|
    && (forall j :: 0 <= j < |vs| && j != split ==> Shows(msg.values[j], vs[j]))
    && (split >= 0 && msg.values[split].Undefined? ==> vs[split] == Undefined)
    && (split >= 0 && msg.values[split].StringValue? ==> k < |lines| && Shows(StringValue(lines[k]), vs[split]))
  }

  /** Decoding the lines of a successful encoding: there is one line per line of the split field, or a single one, and
      each gives back the values of the message, with its line of the split field. */
  lemma DecodedMessage(protocols: seq<Proto>, p: nat, msg: Message, split: int, size: nat) returns (lines: seq<string>)
    requires p < |protocols| && VersionsOk(protocols) && msg.proto == protocols[p] && msg.Ok() && size > 0
    requires -1 <= split < |msg.values| && (split >= 0 ==> msg.proto.fields[split].kind.TypeString?)
    requires EncodeFrom(msg.proto, RecordValues(msg.values, split), "", size).Done?
    ensures AreTokens(lines, '\n')
    ensures if split >= 0 && msg.values[split].StringValue? then Joined(lines, '\n') == msg.values[split].s else |lines| == 1
    ensures var text := EncodeFrom(msg.proto, RecordValues(msg.values, split), "", size).text;
            && |Lines(text)| == |lines| && Tail(text) == ""
            && forall k :: 0 <= k < |lines| ==>
                 var d := Decoded(protocols, Lines(text)[k] + "\0");
                 d.Some? && d.value.0 == p && IsRecord(msg, split, lines, k, d.value.1)
  {
    hide EncodeFrom, Lines, Tail, Decoded, Normal, SplitLines, Joined, VersionsOk, Shows;
    var rs := RecordValues(msg.values, split);
    DecodeEncoded(protocols, p, msg, split, size);
    lines := [""];
    if split >= 0 && msg.values[split].StringValue? {
      lines := SplitLines(msg.values[split].s);
      LinesJoined(msg.values[split].s);
    }
    forall k | 0 <= k < |rs| ensures IsRecord(msg, split, lines, k, Normals(rs[k])) {
      forall j | 0 <= j < |rs[k]| ensures Shows(rs[k][j], Normals(rs[k])[j]) {
        NormalShows(rs[k][j]);
      }
      UndefinedShows();
    }
  }

  lemma UndefinedShows()
    ensures forall d :: Shows(Undefined, d) ==> d == Undefined
  {
  }
}
