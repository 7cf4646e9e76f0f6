/** `canonical.py`: the printer whose output is hashed, and a decoder that inverts it. */
module Canonical {
  import opened Values
  import opened Sequences
  import opened Ordering
  import opened JsonText

  // ----- the printer -----

  /** One printed object member, before sorting. */
  datatype Entry = Entry(key: string, text: string)

  function EntryRank(e: Entry): seq<int> {
    Utf16Bytes(e.key)
  }

  function Join(parts: seq<string>): string {
    if |parts| == 0 then ""
    else if |parts| == 1 then parts[0]
    else parts[0] + "," + Join(parts[1..])
  }

  function Parts(es: seq<Entry>): (r: seq<string>)
    ensures |r| == |es|
  {
    if |es| == 0 then [] else [Quote(es[0].key) + ":" + es[0].text] + Parts(es[1..])
  }

  /** `_canon`; `None` where it raises `CanonicalError`. */
  function Canon(v: Value): Option<string> {
    match v
    case Null => Some("null")
    case Bool(b) => Some(if b then "true" else "false")
    case Int(i) => Some(IntText(i))
    case Str(s) => Some(Quote(s))
    case List(items) =>
      var texts := CanonItems(items);
      if texts.None? then None else Some("[" + Join(texts.value) + "]")
    case Map(ms) =>
      var es := CanonMembers(ms);
      if es.None? then None
      else Some("{" + Join(Parts(SortBy(es.value, EntryRank))) + "}")
    case _ => None
  }

  function CanonItems(items: seq<Value>): Option<seq<string>> {
    if |items| == 0 then Some([])
    else
      var first, rest := Canon(items[0]), CanonItems(items[1..]);
      if first.None? || rest.None? then None else Some([first.value] + rest.value)
  }

  function CanonMembers(ms: seq<Member>): Option<seq<Entry>> {
    if |ms| == 0 then Some([])
    else
      var first, rest := CanonMember(ms[0]), CanonMembers(ms[1..]);
      if first.None? || rest.None? then None else Some([first.value] + rest.value)
  }

  function CanonMember(m: Member): Option<Entry> {
    var text := Canon(m.value);
    if m.key.OtherKey? || text.None? then None else Some(Entry(m.key.name, text.value))
  }

  /** Only JSON types and string keys, all the way down. */
  ghost predicate Printable(v: Value) {
    match v
    case List(items) => forall i :: 0 <= i < |items| ==> Printable(items[i])
    case Map(ms) => forall i :: 0 <= i < |ms| ==> PrintableMember(ms[i])
    case Float(_) => false
    case Date => false
    case Bytes(_) => false
    case Foreign(_) => false
    case _ => true
  }

  ghost predicate PrintableMember(m: Member) {
    m.key.StrKey? && Printable(m.value)
  }

  /** The printer raises exactly on what JSON cannot hold. */
  lemma {:induction false} CanonDefined(v: Value)
    ensures Canon(v).Some? <==> Printable(v)
    decreases v
  {
    match v
    case List(items) => CanonItemsDefined(items);
    case Map(ms) => CanonMembersDefined(ms);
    case _ =>
  }

  lemma {:induction false} CanonItemsDefined(items: seq<Value>)
    ensures CanonItems(items).Some? <==> forall i :: 0 <= i < |items| ==> Printable(items[i])
    ensures CanonItems(items).Some? ==> |CanonItems(items).value| == |items|
    ensures CanonItems(items).Some? ==> forall i :: 0 <= i < |items| ==>
              Canon(items[i]) == Some(CanonItems(items).value[i])
    decreases items
  {
    if |items| > 0 {
      CanonDefined(items[0]);
      CanonItemsDefined(items[1..]);
      assert forall i :: 0 <= i < |items| - 1 ==> items[1..][i] == items[i + 1];
      assert (forall i :: 0 <= i < |items| ==> Printable(items[i])) <==>
             Printable(items[0]) && forall i :: 0 <= i < |items[1..]| ==> Printable(items[1..][i]);
    }
  }

  lemma {:induction false} CanonMembersDefined(ms: seq<Member>)
    ensures CanonMembers(ms).Some? <==> forall i :: 0 <= i < |ms| ==> PrintableMember(ms[i])
    ensures CanonMembers(ms).Some? ==> |CanonMembers(ms).value| == |ms|
    ensures CanonMembers(ms).Some? ==> forall i :: 0 <= i < |ms| ==>
              CanonMember(ms[i]) == Some(CanonMembers(ms).value[i])
    decreases ms
  {
    if |ms| > 0 {
      CanonMemberDefined(ms[0]);
      CanonMembersDefined(ms[1..]);
      assert forall i :: 0 <= i < |ms| - 1 ==> ms[1..][i] == ms[i + 1];
      assert (forall i :: 0 <= i < |ms| ==> PrintableMember(ms[i])) <==>
             PrintableMember(ms[0]) && forall i :: 0 <= i < |ms[1..]| ==> PrintableMember(ms[1..][i]);
    }
  }

  lemma {:induction false} CanonMemberDefined(m: Member)
    ensures CanonMember(m).Some? <==> PrintableMember(m)
    decreases m
  {
    CanonDefined(m.value);
  }

  // ----- a decoder for what the printer writes -----

  datatype Decoded = Fail | Got(value: Json, rest: string)
  datatype DecodedItems = NoItems | Items(values: seq<Json>, rest: string)
  datatype DecodedFields = NoFields | Fields(fields: map<string, Json>, rest: string)

  predicate First(t: string, c: char) {
    |t| > 0 && t[0] == c
  }

  function Decode(t: string): (r: Decoded)
    ensures r.Got? ==> |r.rest| < |t|
    decreases |t|, 0
  {
    if First(t, '\"') then DecodeText(t)
    else if First(t, '[') then
      if First(t[1..], ']') then Got(JList([]), t[2..])
      else
        match DecodeItems(t[1..])
        case Items(values, rest) => Got(JList(values), rest)
        case NoItems => Fail
    else if First(t, '{') then
      if First(t[1..], '}') then Got(JObject(map[]), t[2..])
      else
        match DecodeFields(t[1..])
        case Fields(fields, rest) => Got(JObject(fields), rest)
        case NoFields => Fail
    else DecodeWord(t)
  }

  function DecodeText(t: string): (r: Decoded)
    requires |t| > 0
    ensures r.Got? ==> |r.rest| < |t|
  {
    match ScanString(t[1..])
    case Text(s, used) => Got(JStr(s), t[1 + used..])
    case _ => Fail
  }

  /** Literals and integers. */
  function DecodeWord(t: string): (r: Decoded)
    ensures r.Got? ==> |r.rest| < |t|
  {
    if |t| == 0 then Fail
    else if t[0] == '-' then
      var n := DigitRun(t[1..]);
      if n == 0 then Fail else Got(JInt(-(DigitsValue(t[1..][..n]) as int)), t[1 + n..])
    else if IsDigit(t[0]) then
      var n := DigitRun(t);
      Got(JInt(DigitsValue(t[..n])), t[n..])
    else if |t| >= 4 && t[..4] == "null" then Got(JNull, t[4..])
    else if |t| >= 4 && t[..4] == "true" then Got(JBool(true), t[4..])
    else if |t| >= 5 && t[..5] == "false" then Got(JBool(false), t[5..])
    else Fail
  }

  function DecodeItems(t: string): (r: DecodedItems)
    ensures r.Items? ==> |r.rest| < |t|
    decreases |t|, 1
  {
    match Decode(t)
    case Fail => NoItems
    case Got(v, rest) =>
      if First(rest, ']') then Items([v], rest[1..])
      else if First(rest, ',') then
        match DecodeItems(rest[1..])
        case NoItems => NoItems
        case Items(vs, after) => Items([v] + vs, after)
      else NoItems
  }

  /** One `"name":value` member. */
  function DecodeField(t: string): (r: (string, Decoded))
    ensures r.1.Got? ==> |r.1.rest| < |t|
    decreases |t|, 1
  {
    if !First(t, '\"') then ("", Fail)
    else
      match DecodeText(t)
      case Got(JStr(k), colon) => if First(colon, ':') then (k, Decode(colon[1..])) else (k, Fail)
      case _ => ("", Fail)
  }

  /** As `json.loads`, the last of two equal keys would win. */
  function DecodeFields(t: string): (r: DecodedFields)
    ensures r.Fields? ==> |r.rest| < |t|
    decreases |t|, 2
  {
    var (k, d) := DecodeField(t);
    match d
    case Fail => NoFields
    case Got(v, rest) =>
      if First(rest, '}') then Fields(map[k := v], rest[1..])
      else if First(rest, ',') then
        match DecodeFields(rest[1..])
        case NoFields => NoFields
        case Fields(m, after) => Fields(if k in m then m else m[k := v], after)
      else NoFields
  }

  /** `text`, followed by anything that does not continue a number, reads as `j`. */
  ghost predicate Decodes(text: string, j: Json) {
    forall rest :: NoDigitFirst(rest) ==> Decode(text + rest) == Got(j, rest)
  }

  // ----- the decoder inverts the printer -----

  /** What neither opens a string nor a container is a literal or a number. */
  lemma DecodeIsWord(t: string)
    requires |t| > 0 && t[0] !in "\"[{"
    ensures Decode(t) == DecodeWord(t)
  {
    hide DecodeWord, DecodeText, DecodeItems, DecodeFields;
  }

  lemma DecodeWordInt(i: int, rest: string)
    requires NoDigitFirst(rest)
    ensures DecodeWord(IntText(i) + rest) == Got(JInt(i), rest)
  {
    hide Digits, DigitsValue, DigitRun;
    var n := if i < 0 then -i else i;
    var d := Digits(n);
    DigitsRoundTrip(n);
    DigitRunOf(d, rest);
    var t := IntText(i) + rest;
    assert (d + rest)[..|d|] == d && (d + rest)[|d|..] == rest;
    if i < 0 {
      assert t[0] == '-' && t[1..] == d + rest && t[1 + |d|..] == rest;
    } else {
      assert t == d + rest && t[0] == d[0];
    }
  }

  lemma DecodeInt(i: int)
    ensures Decodes(IntText(i), JInt(i))
  {
    hide Decode, DecodeWord;
    forall rest | NoDigitFirst(rest)
      ensures Decode(IntText(i) + rest) == Got(JInt(i), rest)
    {
      DecodeWordInt(i, rest);
      assert (IntText(i) + rest)[0] == IntText(i)[0];
      DecodeIsWord(IntText(i) + rest);
    }
  }

  lemma DecodeQuoted(s: string, rest: string)
    ensures First(Quote(s) + rest, '\"') && DecodeText(Quote(s) + rest) == Got(JStr(s), rest)
  {
    var t := Quote(s) + rest;
    assert t[1..] == Escape(s) + "\"" + rest;
    ScanQuoted(s, rest);
    assert t[1 + |Escape(s)| + 1..] == rest;
  }

  lemma DecodeStr(s: string)
    ensures Decodes(Quote(s), JStr(s))
  {
    hide DecodeText, ScanString;
    forall rest | NoDigitFirst(rest)
      ensures Decode(Quote(s) + rest) == Got(JStr(s), rest)
    {
      DecodeQuoted(s, rest);
    }
  }

  lemma DecodeLiterals()
    ensures Decodes("null", JNull) && Decodes("true", JBool(true)) && Decodes("false", JBool(false))
  {
    forall rest
      ensures Decode("null" + rest) == Got(JNull, rest)
      ensures Decode("true" + rest) == Got(JBool(true), rest)
      ensures Decode("false" + rest) == Got(JBool(false), rest)
    {
      var n, t, f := "null" + rest, "true" + rest, "false" + rest;
      assert n[..4] == "null" && n[4..] == rest && n[0] == 'n';
      assert t[..4] == "true" && t[4..] == rest && t[0] == 't';
      assert f[..5] == "false" && f[5..] == rest && f[0] == 'f' && f[..4] == "fals";
    }
  }

  lemma DecodesStarts(text: string, j: Json)
    requires Decodes(text, j)
    ensures |text| > 0 && text[0] != ']'
  {
    assert text + "" == text;
    assert NoDigitFirst("");
    assert Decode(text + "") == Got(j, "");
  }

  /** The text `t` holds the value `j` and then `rest`. */
  ghost predicate ReadsAs(t: string, j: Json, rest: string) {
    Decode(t) == Got(j, rest)
  }

  lemma Continue(text: string, j: Json, rest: string)
    requires Decodes(text, j) && NoDigitFirst(rest)
    ensures ReadsAs(text + rest, j, rest)
  {
    hide Decode;
  }

  lemma LastItem(t: string, j: Json, rest: string)
    requires ReadsAs(t, j, "]" + rest)
    ensures DecodeItems(t) == Items([j], rest)
  {
    hide Decode;
    assert ("]" + rest)[1..] == rest;
  }

  lemma NextItem(t: string, j: Json, more: string, js: seq<Json>, rest: string)
    requires ReadsAs(t, j, "," + more) && DecodeItems(more) == Items(js, rest)
    ensures DecodeItems(t) == Items([j] + js, rest)
  {
    hide Decode;
    assert ("," + more)[1..] == more;
  }

  lemma {:induction false} DecodeItemsOf(texts: seq<string>, js: seq<Json>, rest: string)
    requires |texts| == |js| > 0
    requires forall i :: 0 <= i < |js| ==> Decodes(texts[i], js[i])
    ensures DecodeItems(Join(texts) + "]" + rest) == Items(js, rest)
  {
    hide Decode, DecodeItems, Decodes, ReadsAs;
    var t := Join(texts) + "]" + rest;
    if |js| == 1 {
      assert t == texts[0] + ("]" + rest);
      Continue(texts[0], js[0], "]" + rest);
      LastItem(t, js[0], rest);
      assert js == [js[0]];
    } else {
      var more := Join(texts[1..]) + "]" + rest;
      assert t == texts[0] + ("," + more);
      Continue(texts[0], js[0], "," + more);
      DecodeItemsOf(texts[1..], js[1..], rest);
      NextItem(t, js[0], more, js[1..], rest);
      assert js == [js[0]] + js[1..];
    }
  }

  ghost function KeysOf(es: seq<Entry>): set<string> {
    set e | e in es :: e.key
  }

  lemma DecodeMemberHead(e: Entry, j: Json, after: string)
    requires Decodes(e.text, j) && NoDigitFirst(after)
    ensures DecodeField(Quote(e.key) + ":" + e.text + after) == (e.key, Got(j, after))
  {
    hide Decode, DecodeText, Quote;
    var t := Quote(e.key) + ":" + e.text + after;
    var tail := ":" + e.text + after;
    assert t == Quote(e.key) + tail;
    DecodeQuoted(e.key, tail);
    assert tail[1..] == e.text + after;
  }

  lemma LastField(t: string, k: string, j: Json, rest: string)
    requires DecodeField(t) == (k, Got(j, "}" + rest))
    ensures DecodeFields(t) == Fields(map[k := j], rest)
  {
    hide Decode, DecodeField;
    assert ("}" + rest)[1..] == rest;
  }

  lemma NextField(t: string, k: string, j: Json, more: string, m: map<string, Json>, rest: string)
    requires DecodeField(t) == (k, Got(j, "," + more)) && DecodeFields(more) == Fields(m, rest)
    ensures DecodeFields(t) == Fields(if k in m then m else m[k := j], rest)
  {
    hide Decode, DecodeField;
    assert ("," + more)[1..] == more;
  }

  lemma {:induction false} DecodeFieldsOf(es: seq<Entry>, m: map<string, Json>, rest: string)
    requires |es| > 0
    requires forall i :: 0 <= i < |es| ==> es[i].key in m && Decodes(es[i].text, m[es[i].key])
    ensures DecodeFields(Join(Parts(es)) + "}" + rest)
            == Fields(map k | k in KeysOf(es) :: m[k], rest)
  {
    hide Decode, DecodeField, DecodeFields, Decodes, Quote;
    var t := Join(Parts(es)) + "}" + rest;
    var e := es[0];
    var head := Quote(e.key) + ":" + e.text;
    KeysOfCons(es);
    if |es| == 1 {
      assert Parts(es) == [head];
      assert t == head + ("}" + rest);
      DecodeMemberHead(e, m[e.key], "}" + rest);
      LastField(t, e.key, m[e.key], rest);
      assert (map k | k in KeysOf(es) :: m[k]) == map[e.key := m[e.key]];
    } else {
      var more := Join(Parts(es[1..])) + "}" + rest;
      assert Parts(es)[0] == head && Parts(es)[1..] == Parts(es[1..]);
      assert t == head + ("," + more);
      DecodeMemberHead(e, m[e.key], "," + more);
      DecodeFieldsOf(es[1..], m, rest);
      var tail := map k | k in KeysOf(es[1..]) :: m[k];
      NextField(t, e.key, m[e.key], more, tail, rest);
      assert (map k | k in KeysOf(es) :: m[k])
             == if e.key in tail then tail else tail[e.key := m[e.key]];
    }
  }

  lemma KeysOfCons(es: seq<Entry>)
    requires |es| > 0
    ensures KeysOf(es) == {es[0].key} + KeysOf(es[1..])
  {
    assert es == [es[0]] + es[1..];
  }

  /** Reading the canonical text of a value gives back its meaning and stops exactly at its end. */
  lemma {:induction false} CanonRoundTrip(v: Value)
    requires WellFormed(v) && Canon(v).Some?
    ensures Decodes(Canon(v).value, Meaning(v))
    decreases v
  {
    var text := Canon(v).value;
    match v
    case Null => DecodeLiterals();
    case Bool(_) => DecodeLiterals();
    case Int(i) => DecodeInt(i);
    case Str(s) => DecodeStr(s);
    case List(items) =>
      ItemsRoundTrip(items);
      ListDecodes(CanonItems(items).value, MeaningItems(items));
    case Map(ms) =>
      MembersRoundTrip(ms);
      ObjectDecodes(CanonMembers(ms).value, MeaningMembers(ms));
  }

  lemma {:induction false} ItemsRoundTrip(items: seq<Value>)
    requires forall i :: 0 <= i < |items| ==> WellFormed(items[i])
    requires CanonItems(items).Some?
    ensures |CanonItems(items).value| == |items|
    ensures forall i :: 0 <= i < |items| ==>
              Decodes(CanonItems(items).value[i], MeaningItems(items)[i])
    decreases items
  {
    if |items| > 0 {
      CanonRoundTrip(items[0]);
      ItemsRoundTrip(items[1..]);
      forall i | 0 <= i < |items|
        ensures Decodes(CanonItems(items).value[i], MeaningItems(items)[i])
      {
        if i > 0 {
          assert CanonItems(items).value[i] == CanonItems(items[1..]).value[i - 1];
          assert MeaningItems(items)[i] == MeaningItems(items[1..])[i - 1];
        }
      }
    }
  }

  lemma ArrayOfItems(t: string, js: seq<Json>, rest: string)
    requires |t| > 0 && t[0] == '[' && !First(t[1..], ']') && DecodeItems(t[1..]) == Items(js, rest)
    ensures Decode(t) == Got(JList(js), rest)
  {
    hide DecodeText, DecodeItems, DecodeFields, DecodeWord;
  }

  lemma EmptyArray(rest: string)
    ensures Decode("[]" + rest) == Got(JList([]), rest)
  {
    hide DecodeText, DecodeItems, DecodeFields, DecodeWord;
    assert ("[]" + rest)[2..] == rest;
  }

  lemma ListDecodes(texts: seq<string>, js: seq<Json>)
    requires |texts| == |js|
    requires forall i :: 0 <= i < |js| ==> Decodes(texts[i], js[i])
    ensures Decodes("[" + Join(texts) + "]", JList(js))
  {
    hide Decode, DecodeItems;
    forall rest | NoDigitFirst(rest)
      ensures Decode("[" + Join(texts) + "]" + rest) == Got(JList(js), rest)
    {
      var t := "[" + Join(texts) + "]" + rest;
      if |js| == 0 {
        assert t == "[]" + rest;
        EmptyArray(rest);
      } else {
        DecodeItemsOf(texts, js, rest);
        DecodesStarts(texts[0], js[0]);
        assert t[1..] == Join(texts) + "]" + rest;
        assert t[1..][0] == texts[0][0];
        ArrayOfItems(t, js, rest);
      }
    }
  }

  ghost predicate EntriesMean(es: seq<Entry>, m: map<string, Json>) {
    && KeysOf(es) == m.Keys
    && forall i :: 0 <= i < |es| ==> es[i].key in m && Decodes(es[i].text, m[es[i].key])
  }

  lemma {:induction false} MembersRoundTrip(ms: seq<Member>)
    requires DistinctKeys(ms) && WellFormedMembers(ms) && CanonMembers(ms).Some?
    ensures EntriesMean(CanonMembers(ms).value, MeaningMembers(ms))
    decreases ms
  {
    var es, m := CanonMembers(ms).value, MeaningMembers(ms);
    if |ms| > 0 {
      MemberRoundTrip(ms[0]);
      assert forall i :: 0 <= i < |ms| - 1 ==> ms[1..][i] == ms[i + 1];
      MembersRoundTrip(ms[1..]);
      var tail, rest := CanonMembers(ms[1..]).value, MeaningMembers(ms[1..]);
      MeaningLookup(ms[1..], es[0].key);
      assert es[0].key !in rest;
      assert es == [es[0]] + tail;
      KeysOfCons(es);
      assert es[1..] == tail;
      forall i | 0 <= i < |es|
        ensures es[i].key in m && Decodes(es[i].text, m[es[i].key])
      {
        if i > 0 {
          assert es[i] == tail[i - 1];
          assert tail[i - 1].key in rest;
        }
      }
    }
  }

  lemma {:induction false} MemberRoundTrip(m: Member)
    requires WellFormedMember(m) && CanonMember(m).Some?
    ensures Decodes(CanonMember(m).value.text, MeaningMember(m))
    decreases m
  {
    CanonRoundTrip(m.value);
  }

  lemma SortKeepsEntries(es: seq<Entry>)
    ensures var r := SortBy(es, EntryRank);
            && KeysOf(r) == KeysOf(es)
            && forall i :: 0 <= i < |r| ==> r[i] in es
  {
    var r := SortBy(es, EntryRank);
    assert multiset(r) == multiset(es);
    forall e ensures e in r <==> e in es {
      assert e in r <==> e in multiset(r);
      assert e in es <==> e in multiset(es);
    }
  }

  lemma ObjectOfFields(t: string, m: map<string, Json>, rest: string)
    requires |t| > 0 && t[0] == '{' && !First(t[1..], '}') && DecodeFields(t[1..]) == Fields(m, rest)
    ensures Decode(t) == Got(JObject(m), rest)
  {
    hide DecodeText, DecodeItems, DecodeFields, DecodeWord;
  }

  lemma EmptyObject(rest: string)
    ensures Decode("{}" + rest) == Got(JObject(map[]), rest)
  {
    hide DecodeText, DecodeItems, DecodeFields, DecodeWord;
    assert ("{}" + rest)[2..] == rest;
  }

  lemma SortedMeanTheSame(es: seq<Entry>, m: map<string, Json>)
    requires EntriesMean(es, m)
    ensures EntriesMean(SortBy(es, EntryRank), m)
  {
    hide Decodes, SortBy;
    var r := SortBy(es, EntryRank);
    SortKeepsEntries(es);
    forall i | 0 <= i < |r|
      ensures r[i].key in m && Decodes(r[i].text, m[r[i].key])
    {
      assert r[i] in es;
      var k :| 0 <= k < |es| && es[k] == r[i];
    }
  }

  lemma FieldsDecode(es: seq<Entry>, m: map<string, Json>)
    requires EntriesMean(es, m)
    ensures Decodes("{" + Join(Parts(es)) + "}", JObject(m))
  {
    hide Decode, DecodeFields, Join, Parts;
    forall rest | NoDigitFirst(rest)
      ensures Decode("{" + Join(Parts(es)) + "}" + rest) == Got(JObject(m), rest)
    {
      var t := "{" + Join(Parts(es)) + "}" + rest;
      if |es| == 0 {
        JoinNothing();
        assert t == "{}" + rest;
        assert m == map[];
        EmptyObject(rest);
      } else {
        DecodeFieldsOf(es, m, rest);
        assert (map k | k in KeysOf(es) :: m[k]) == m;
        JoinOpensQuote(es);
        assert t[1..] == Join(Parts(es)) + "}" + rest;
        assert t[1..][0] == Join(Parts(es))[0];
        ObjectOfFields(t, m, rest);
      }
    }
  }

  lemma JoinNothing()
    ensures Join(Parts([])) == ""
  {
  }

  lemma JoinOpensQuote(es: seq<Entry>)
    requires |es| > 0
    ensures |Join(Parts(es))| > 0 && Join(Parts(es))[0] == '\"'
  {
    hide Escape;
    assert Parts(es)[0] == Quote(es[0].key) + ":" + es[0].text;
  }

  lemma ObjectDecodes(es: seq<Entry>, m: map<string, Json>)
    requires EntriesMean(es, m)
    ensures Decodes("{" + Join(Parts(SortBy(es, EntryRank))) + "}", JObject(m))
  {
    SortedMeanTheSame(es, m);
    FieldsDecode(SortBy(es, EntryRank), m);
  }

  // ----- equal texts, equal meanings -----

  lemma DecodesOnce(text: string, a: Json, b: Json)
    requires Decodes(text, a) && Decodes(text, b)
    ensures a == b
  {
    assert NoDigitFirst("");
    assert Decode(text + "") == Got(a, "") == Got(b, "");
  }

  /** The canonical text names a value's meaning and nothing else: member order is immaterial, and
  nothing that differs in meaning is written the same. */
  lemma CanonEqualIffMeaningEqual(v: Value, w: Value)
    requires WellFormed(v) && WellFormed(w) && Canon(v).Some? && Canon(w).Some?
    ensures Canon(v) == Canon(w) <==> Meaning(v) == Meaning(w)
  {
    if Canon(v) == Canon(w) {
      CanonRoundTrip(v);
      CanonRoundTrip(w);
      DecodesOnce(Canon(v).value, Meaning(v), Meaning(w));
    }
    if Meaning(v) == Meaning(w) {
      MeaningFixesText(v, w);
    }
  }

  lemma {:induction false} MeaningFixesText(v: Value, w: Value)
    requires WellFormed(v) && WellFormed(w) && Canon(v).Some? && Canon(w).Some?
    requires Meaning(v) == Meaning(w)
    ensures Canon(v) == Canon(w)
    decreases v
  {
    CanonDefined(v);
    CanonDefined(w);
    if v.List? {
      MeaningFixesItems(v.items, w.items);
    } else if v.Map? {
      MeaningFixesMembers(v.members, w.members);
      SortedEntriesUnique(CanonMembers(v.members).value, CanonMembers(w.members).value);
    }
  }

  lemma {:induction false} MeaningFixesItems(a: seq<Value>, b: seq<Value>)
    requires forall i :: 0 <= i < |a| ==> WellFormed(a[i])
    requires forall i :: 0 <= i < |b| ==> WellFormed(b[i])
    requires CanonItems(a).Some? && CanonItems(b).Some?
    requires MeaningItems(a) == MeaningItems(b)
    ensures CanonItems(a) == CanonItems(b)
    decreases a
  {
    assert |a| == |b|;
    if |a| > 0 {
      assert MeaningItems(a)[1..] == MeaningItems(a[1..]);
      assert MeaningItems(b)[1..] == MeaningItems(b[1..]);
      MeaningFixesText(a[0], b[0]);
      MeaningFixesItems(a[1..], b[1..]);
    }
  }

  ghost predicate DistinctEntryKeys(es: seq<Entry>) {
    forall i, j :: 0 <= i < j < |es| ==> es[i].key != es[j].key
  }

  /** The printed members of two equal-meaning mappings are the same up to order. */
  lemma {:induction false} MeaningFixesMembers(a: seq<Member>, b: seq<Member>)
    requires DistinctKeys(a) && WellFormedMembers(a) && CanonMembers(a).Some?
    requires DistinctKeys(b) && WellFormedMembers(b) && CanonMembers(b).Some?
    requires MeaningMembers(a) == MeaningMembers(b)
    ensures DistinctEntryKeys(CanonMembers(a).value) && DistinctEntryKeys(CanonMembers(b).value)
    ensures forall e :: e in CanonMembers(a).value <==> e in CanonMembers(b).value
    decreases a
  {
    CanonMembersDefined(a);
    CanonMembersDefined(b);
    var x, y := CanonMembers(a).value, CanonMembers(b).value;
    DistinctPrinted(a);
    DistinctPrinted(b);
    forall i | 0 <= i < |a| ensures x[i] in y {
      var j := SameKeyElsewhere(a, b, i);
      MeaningFixesMember(a[i], b[j]);
      assert y[j] == x[i];
    }
    forall j | 0 <= j < |b| ensures y[j] in x {
      var i := SameKeyElsewhere(b, a, j);
      MeaningFixesMember(a[i], b[j]);
      assert x[i] == y[j];
    }
  }

  lemma {:induction false} MeaningFixesMember(a: Member, b: Member)
    requires WellFormedMember(a) && WellFormedMember(b)
    requires CanonMember(a).Some? && CanonMember(b).Some?
    requires a.key == b.key && MeaningMember(a) == MeaningMember(b)
    ensures CanonMember(a) == CanonMember(b)
    decreases a
  {
    MeaningFixesText(a.value, b.value);
  }

  lemma DistinctPrinted(ms: seq<Member>)
    requires DistinctKeys(ms) && CanonMembers(ms).Some?
    ensures DistinctEntryKeys(CanonMembers(ms).value)
  {
    CanonMembersDefined(ms);
    var es := CanonMembers(ms).value;
    forall i, j | 0 <= i < j < |es| ensures es[i].key != es[j].key {
      assert CanonMember(ms[i]) == Some(es[i]) && CanonMember(ms[j]) == Some(es[j]);
    }
  }

  lemma SameKeyElsewhere(a: seq<Member>, b: seq<Member>, i: nat) returns (j: nat)
    requires DistinctKeys(a) && DistinctKeys(b) && MeaningMembers(a) == MeaningMembers(b)
    requires i < |a| && a[i].key.StrKey?
    ensures j < |b| && b[j].key == a[i].key && MeaningMember(b[j]) == MeaningMember(a[i])
  {
    var k := a[i].key.name;
    MeaningLookup(a, k);
    MeaningLookup(b, k);
    LookupOf(a, i);
    assert HasKey(a, StrKey(k));
    j :| 0 <= j < |b| && b[j].key == StrKey(k);
    LookupOf(b, j);
  }

  lemma SortedEntriesUnique(x: seq<Entry>, y: seq<Entry>)
    requires DistinctEntryKeys(x) && DistinctEntryKeys(y)
    requires forall e :: e in x <==> e in y
    ensures SortBy(x, EntryRank) == SortBy(y, EntryRank)
  {
    hide SortBy, Sorted, Separates;
    SameItems(x, y);
    SortBySorted(x, EntryRank);
    SortBySorted(y, EntryRank);
    KeysSeparate(x);
    SortedUnique(SortBy(x, EntryRank), SortBy(y, EntryRank), EntryRank);
  }

  ghost predicate InKeyOrder(es: seq<Entry>) {
    forall i, j :: 0 <= i < j < |es| ==> KeyLess(es[i].key, es[j].key)
  }

  /** Of all the ways to list an object's members, exactly one is in the order RFC 8785 section 3.2.3
  asks for, and that is the one printed. */
  lemma ObjectTextInKeyOrder(ms: seq<Member>, es: seq<Entry>)
    requires DistinctKeys(ms) && CanonMembers(ms).Some?
    requires multiset(es) == multiset(CanonMembers(ms).value)
    ensures InKeyOrder(es) <==> es == SortBy(CanonMembers(ms).value, EntryRank)
    ensures InKeyOrder(es) ==> Canon(Map(ms)) == Some("{" + Join(Parts(es)) + "}")
  {
    hide SortBy, InKeyOrder, Join, Parts, DistinctEntryKeys;
    DistinctPrinted(ms);
    OnlyOrder(CanonMembers(ms).value, es);
  }

  lemma OnlyOrder(x: seq<Entry>, es: seq<Entry>)
    requires DistinctEntryKeys(x) && multiset(es) == multiset(x)
    ensures InKeyOrder(es) <==> es == SortBy(x, EntryRank)
  {
    hide SortBy, Sorted, Separates, DistinctEntryKeys;
    var sorted := SortBy(x, EntryRank);
    SortBySorted(x, EntryRank);
    DistinctArranged(x, es);
    KeyOrderIsSorted(es);
    if InKeyOrder(es) {
      KeysSeparate(es);
      SortedUnique(es, sorted, EntryRank);
    }
  }

  lemma KeysSeparate(es: seq<Entry>)
    requires DistinctEntryKeys(es)
    ensures Separates(EntryRank, multiset(es))
  {
    forall a, b | a in multiset(es) && b in multiset(es) && EntryRank(a) == EntryRank(b)
      ensures a == b
    {
      var i :| 0 <= i < |es| && es[i] == a;
      var j :| 0 <= j < |es| && es[j] == b;
      KeyOrderStrictTotal(a.key, b.key, a.key);
    }
  }

  /** With no key repeated, ascending and strictly ascending are the same. */
  lemma KeyOrderIsSorted(es: seq<Entry>)
    requires DistinctEntryKeys(es)
    ensures InKeyOrder(es) <==> Sorted(es, EntryRank)
  {
    hide Utf16Bytes, LexLess;
    forall i, j | 0 <= i < j < |es|
      ensures KeyLess(es[i].key, es[j].key) <==> LexLeq(EntryRank(es[i]), EntryRank(es[j]))
    {
      KeyOrderStrictTotal(es[i].key, es[j].key, es[i].key);
    }
  }

  lemma DistinctArranged(x: seq<Entry>, y: seq<Entry>)
    requires DistinctEntryKeys(x) && multiset(x) == multiset(y)
    ensures DistinctEntryKeys(y)
  {
    Arranged(x, y);
    forall i, j | 0 <= i < j < |y| ensures y[i].key != y[j].key {
      assert y[i] in multiset(x) && y[j] in multiset(x);
      var a :| 0 <= a < |x| && x[a] == y[i];
      var b :| 0 <= b < |x| && x[b] == y[j];
    }
  }
}
