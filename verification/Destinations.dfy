/** `destination_format.py`: a destination string is accepted only when writing out what it names
gives it back. `_destination_errors` of the non-software-operational profile checks lists of them. */
module Destinations {
  import opened Values
  import opened Sequences
  import opened Ordering
  import opened JsonText

  // ----- what the parser leans on -----

  /** Facts about text decided outside the code: Unicode whitespace, NFC normalisation, whether a
  string with an unpaired surrogate passes the same two tests, and where a JSON value that is
  neither a string nor a boolean ends. The results below hold whatever these answer. */
  datatype Outside = Outside(
    isSpace: char -> bool,
    isNfc: string -> bool,
    admitsBroken: string -> bool,
    otherJson: string -> Option<nat>)

  /** The identity fields of each kind, in order, and the names of boolean fields. */
  datatype Table = Table(fields: map<string, seq<string>>, booleans: set<string>)

  const IDENTITY_FIELDS: Table := Table(
    map[
      "provider" := ["name"],
      "bws-secret" := ["uuid"],
      "coolify-env" := ["instance", "resource_type", "uuid", "key", "redeploy"],
      "coolify-env-hash" := ["instance", "resource_type", "uuid", "key", "entry"],
      "coolify-env-held" := ["instance", "resource_type", "uuid", "key"],
      "gh-actions-secret" := ["repo", "name"],
      "keychain" := ["service", "account"],
      "runtime-fetch" := ["repo", "ref"],
      "shell-export" := ["file", "var"]
    ],
    {"redeploy"})

  /** What `raw_decode` can give. `Broken` is a string no Unicode text can hold. */
  datatype FieldValue = Text(s: string) | Flag(b: bool) | Broken(raw: string) | OtherJson

  datatype Problem =
    | UnknownKind
    | NeedsField(name: string)
    | NoJsonValue(name: string)
    | BadValue(name: string)
    | NotCanonical

  // ----- one value -----

  datatype Decoded = Nothing | Value(value: FieldValue, used: nat)

  /** `decoder.raw_decode(rest, idx)`, on the text from `idx`. */
  function RawDecode(u: Outside, t: string): (r: Decoded)
    ensures r.Value? ==> r.used <= |t|
  {
    if |t| > 0 && t[0] == '\"' then
      match ScanString(t[1..])
      case Bad => Nothing
      case Text(s, used) => Value(FieldValue.Text(s), 1 + used)
      case Broken(used) => Value(FieldValue.Broken(t[..1 + used]), 1 + used)
    else if |t| >= 4 && t[..4] == "true" then Value(Flag(true), 4)
    else if |t| >= 5 && t[..5] == "false" then Value(Flag(false), 5)
    else
      match u.otherJson(t)
      case Some(n) => if n <= |t| then Value(OtherJson, n) else Nothing
      case None => Nothing
  }

  predicate Trimmed(u: Outside, s: string) {
    |s| > 0 && !u.isSpace(s[0]) && !u.isSpace(s[|s| - 1])
  }

  /** `_value_error` finds nothing. */
  predicate ValueOk(u: Outside, table: Table, name: string, v: FieldValue) {
    if name in table.booleans then v.Flag?
    else
      match v
      case Text(s) => Trimmed(u, s) && u.isNfc(s)
      case Broken(raw) => u.admitsBroken(raw)
      case _ => false
  }

  function FlagText(b: bool): string {
    if b then "true" else "false"
  }

  /** `json.dumps(v, ensure_ascii=False)` for a value that is text or a flag. */
  function ValueText(v: FieldValue): string
    requires v.Text? || v.Flag?
  {
    match v
    case Text(s) => Quote(s)
    case Flag(b) => FlagText(b)
  }

  // ----- the whole string -----

  /** Where the first space is; the length when there is none. */
  function FirstSpace(d: string): (n: nat)
    ensures n <= |d|
    ensures n < |d| ==> d[n] == ' '
    ensures forall i :: 0 <= i < n ==> d[i] != ' '
  {
    if |d| == 0 || d[0] == ' ' then 0 else 1 + FirstSpace(d[1..])
  }

  function KindOf(d: string): string {
    d[..FirstSpace(d)]
  }

  function RestOf(d: string): string {
    var n := FirstSpace(d);
    if n < |d| then d[n + 1..] else ""
  }

  function AfterSpace(t: string): string {
    if |t| > 0 && t[0] == ' ' then t[1..] else t
  }

  datatype Scan = Stopped(problem: Problem) | Values(values: seq<FieldValue>)

  function Prepend(vs: seq<FieldValue>, s: Scan): Scan {
    match s
    case Stopped(p) => Stopped(p)
    case Values(more) => Values(vs + more)
  }

  function Prefix(name: string): string {
    name + "="
  }

  /** The loop over the fields, as a function of the text still unread. */
  function ScanFields(u: Outside, table: Table, fields: seq<string>, t: string): Scan {
    if |fields| == 0 then Values([])
    else
      var name := fields[0];
      if !StartsWith(t, Prefix(name)) then Stopped(NeedsField(name))
      else
        var body := t[|Prefix(name)|..];
        match RawDecode(u, body)
        case Nothing => Stopped(NoJsonValue(name))
        case Value(v, used) =>
          if !ValueOk(u, table, name, v) then Stopped(BadValue(name))
          else Prepend([v], ScanFields(u, table, fields[1..], AfterSpace(body[used..])))
  }

  function RenderFields(fields: seq<string>, values: seq<FieldValue>): string
    requires |fields| == |values|
    requires forall i :: 0 <= i < |values| ==> values[i].Text? || values[i].Flag?
  {
    if |fields| == 0 then ""
    else
      var first := Prefix(fields[0]) + ValueText(values[0]);
      if |fields| == 1 then first
      else first + " " + RenderFields(fields[1..], values[1..])
  }

  /** The one spelling of a destination. */
  function Render(kind: string, fields: seq<string>, values: seq<FieldValue>): string
    requires |fields| == |values|
    requires forall i :: 0 <= i < |values| ==> values[i].Text? || values[i].Flag?
  {
    if |fields| == 0 then kind else kind + " " + RenderFields(fields, values)
  }

  /** The re-rendering says the same as the string. Nothing with a surrogate in it can. */
  predicate RendersAs(kind: string, fields: seq<string>, values: seq<FieldValue>, d: string)
    requires |fields| == |values|
  {
    && (forall i :: 0 <= i < |values| ==> values[i].Text? || values[i].Flag?)
    && Render(kind, fields, values) == d
  }

  lemma {:induction false} ScanLength(u: Outside, table: Table, fields: seq<string>, t: string)
    requires ScanFields(u, table, fields, t).Values?
    ensures |ScanFields(u, table, fields, t).values| == |fields|
    ensures forall i :: 0 <= i < |fields| ==>
              ValueOk(u, table, fields[i], ScanFields(u, table, fields, t).values[i])
  {
    hide ValueOk, RawDecode;
    if |fields| > 0 {
      var body := t[|Prefix(fields[0])|..];
      var d := RawDecode(u, body);
      ScanLength(u, table, fields[1..], AfterSpace(body[d.used..]));
      var vs := ScanFields(u, table, fields, t).values;
      var tail := ScanFields(u, table, fields[1..], AfterSpace(body[d.used..])).values;
      assert vs == [d.value] + tail;
      forall i | 0 <= i < |fields| ensures ValueOk(u, table, fields[i], vs[i]) {
        if i > 0 {
          assert fields[i] == fields[1..][i - 1] && vs[i] == tail[i - 1];
        }
      }
    }
  }

  /** `destination_error`, as a function: what the loop finds, then the one comparison. */
  function DestinationProblem(u: Outside, table: Table, d: string): Option<Problem> {
    var kind := KindOf(d);
    if kind !in table.fields then Some(UnknownKind)
    else
      var fields := table.fields[kind];
      match ScanFields(u, table, fields, RestOf(d))
      case Stopped(p) => Some(p)
      case Values(values) =>
        ScanLength(u, table, fields, RestOf(d));
        if RendersAs(kind, fields, values, d) then None else Some(NotCanonical)
  }

  /** One turn of the loop, on the text from `position`. */
  datatype Turn = Refused(problem: Problem) | Took(value: FieldValue, position: nat)

  function ScanOne(u: Outside, table: Table, name: string, t: string): (r: Turn)
    ensures r.Took? ==> r.position <= |t|
  {
    if !StartsWith(t, Prefix(name)) then Refused(NeedsField(name))
    else
      match RawDecode(u, t[|Prefix(name)|..])
      case Nothing => Refused(NoJsonValue(name))
      case Value(v, used) =>
        if !ValueOk(u, table, name, v) then Refused(BadValue(name))
        else
          var position := |Prefix(name)| + used;
          Took(v, if position < |t| && t[position] == ' ' then position + 1 else position)
  }

  lemma ScanStep(u: Outside, table: Table, fields: seq<string>, t: string)
    requires |fields| > 0
    ensures var turn := ScanOne(u, table, fields[0], t);
            ScanFields(u, table, fields, t) ==
              if turn.Refused? then Stopped(turn.problem)
              else Prepend([turn.value], ScanFields(u, table, fields[1..], t[turn.position..]))
  {
    hide RawDecode, ValueOk;
    var turn := ScanOne(u, table, fields[0], t);
    if turn.Took? {
      var body := t[|Prefix(fields[0])|..];
      var used := RawDecode(u, body).used;
      assert AfterSpace(body[used..]) == t[turn.position..];
    }
  }

  /** `destination_error`: the loop that moves `position` and collects `values`. */
  method DestinationError(u: Outside, table: Table, d: string) returns (error: Option<Problem>)
    ensures error == DestinationProblem(u, table, d)
  {
    hide RendersAs, ScanFields, RawDecode, ValueOk;
    var kind, rest := KindOf(d), RestOf(d);
    if kind !in table.fields {
      return Some(UnknownKind);
    }
    var fields := table.fields[kind];
    var values: seq<FieldValue> := [];
    var position := 0;
    for i := 0 to |fields|
      invariant position <= |rest|
      invariant |values| == i
      invariant ScanFields(u, table, fields, rest)
             == Prepend(values, ScanFields(u, table, fields[i..], rest[position..]))
    {
      var name := fields[i];
      ghost var text := rest[position..];
      assert fields[i..][0] == name && fields[i..][1..] == fields[i + 1..];
      ScanStep(u, table, fields[i..], text);
      if !StartsWith(rest[position..], Prefix(name)) {
        return Some(NeedsField(name));
      }
      var decoded := RawDecode(u, rest[position..][|Prefix(name)|..]);
      if decoded.Nothing? {
        return Some(NoJsonValue(name));
      }
      if !ValueOk(u, table, name, decoded.value) {
        return Some(BadValue(name));
      }
      ghost var start := position;
      position := position + |Prefix(name)| + decoded.used;
      if position < |rest| && rest[position] == ' ' {
        position := position + 1;
      }
      assert ScanOne(u, table, name, text) == Took(decoded.value, position - start);
      assert text[position - start..] == rest[position..];
      PrependMore(values, decoded.value, ScanFields(u, table, fields[i + 1..], rest[position..]));
      values := values + [decoded.value];
    }
    ScanNothing(u, table, rest[position..]);
    assert fields[|fields|..] == [];
    assert ScanFields(u, table, fields, rest) == Values(values);
    if RendersAs(kind, fields, values, d) {
      return None;
    }
    return Some(NotCanonical);
  }

  lemma ScanNothing(u: Outside, table: Table, t: string)
    ensures ScanFields(u, table, [], t) == Values([])
  {
  }

  lemma PrependMore(vs: seq<FieldValue>, v: FieldValue, s: Scan)
    ensures Prepend(vs, Prepend([v], s)) == Prepend(vs + [v], s)
  {
    if s.Values? { assert vs + ([v] + s.values) == vs + [v] + s.values; }
  }

  // ----- what is accepted -----

  /** What a destination names. */
  datatype Named = Named(kind: string, values: seq<FieldValue>)

  /** `s.strip()`. */
  function Strip(u: Outside, s: string): string {
    StripEnd(u, StripStart(u, s))
  }

  function StripStart(u: Outside, s: string): (r: string)
    ensures |r| <= |s|
  {
    if |s| > 0 && u.isSpace(s[0]) then StripStart(u, s[1..]) else s
  }

  function StripEnd(u: Outside, s: string): (r: string)
    ensures |r| <= |s|
  {
    if |s| > 0 && u.isSpace(s[|s| - 1]) then StripEnd(u, s[..|s| - 1]) else s
  }

  /** A boolean for a boolean field; for any other, text that is its own stripped form, is not blank, and is
  in NFC. */
  ghost predicate Admissible(u: Outside, table: Table, name: string, v: FieldValue) {
    if name in table.booleans then v == Flag(true) || v == Flag(false)
    else exists s :: v == FieldValue.Text(s) && Strip(u, s) == s && s != "" && u.isNfc(s)
  }

  lemma TrimmedIff(u: Outside, s: string)
    ensures Trimmed(u, s) <==> Strip(u, s) == s && s != ""
  {
    if s != "" && u.isSpace(s[0]) {
      assert |StripStart(u, s)| < |s|;
    }
  }

  lemma AdmissibleIff(u: Outside, table: Table, name: string, v: FieldValue)
    ensures Admissible(u, table, name, v) <==> (v.Text? || v.Flag?) && ValueOk(u, table, name, v)
  {
    hide Trimmed, Strip;
    if v.Text? {
      TrimmedIff(u, v.s);
      assert v == FieldValue.Text(v.s);
    }
  }

  /** `d` is the rendering of `n`, whose kind is known and whose values are admissible. */
  ghost predicate Names(u: Outside, table: Table, d: string, n: Named) {
    && n.kind in table.fields
    && |n.values| == |table.fields[n.kind]|
    && (forall i :: 0 <= i < |n.values| ==> Admissible(u, table, table.fields[n.kind][i], n.values[i]))
    && d == Render(n.kind, table.fields[n.kind], n.values)
  }

  /** The values as they are written: a string quoted with nothing escaped that need not be, a boolean in
  lower case. */
  function Spelled(v: FieldValue): string
    requires v.Text? || v.Flag?
  {
    if v == Flag(true) then "true" else if v == Flag(false) then "false" else "\"" + Escape(v.s) + "\""
  }

  /** A rendering is the kind and then, for each field in order, a space, its name, an equals sign and its
  value. */
  lemma RenderTold(
      kind: string, fields: seq<string>, values: seq<FieldValue>, field: string, v: FieldValue)
    requires |fields| == |values| && (v.Text? || v.Flag?)
    requires forall i :: 0 <= i < |values| ==> values[i].Text? || values[i].Flag?
    ensures Render(kind, [], []) == kind
    ensures Render(kind, fields + [field], values + [v])
            == Render(kind, fields, values) + " " + field + "=" + Spelled(v)
  {
    hide RenderFields, Spelled;
    var piece := field + "=" + Spelled(v);
    FieldsTold(fields, values, field, v, piece);
    Regroup4(Render(kind, fields, values), field, Spelled(v));
    if fields != [] {
      Regroup(kind + " ", RenderFields(fields, values), " " + piece);
    }
  }

  lemma {:induction false} FieldsTold(
      fields: seq<string>, values: seq<FieldValue>, field: string, v: FieldValue, piece: string)
    requires |fields| == |values| && (v.Text? || v.Flag?) && piece == field + "=" + Spelled(v)
    requires forall i :: 0 <= i < |values| ==> values[i].Text? || values[i].Flag?
    ensures RenderFields(fields + [field], values + [v])
            == if fields == [] then piece else RenderFields(fields, values) + (" " + piece)
  {
    hide RenderFields, Spelled, ValueText;
    var fs, vs := fields + [field], values + [v];
    FieldsStep(fs, vs);
    if fields == [] {
      assert fs == [field] && vs == [v];
      PieceText(field, v);
    } else {
      FieldsStep(fields, values);
      assert fs[0] == fields[0] && fs[1..] == fields[1..] + [field];
      assert vs[0] == values[0] && vs[1..] == values[1..] + [v];
      FieldsTold(fields[1..], values[1..], field, v, piece);
      var first := Prefix(fields[0]) + ValueText(values[0]);
      if |fields| == 1 {
        Regroup(first, " ", piece);
      } else {
        Regroup(first + " ", RenderFields(fields[1..], values[1..]), " " + piece);
      }
    }
  }

  lemma FieldsStep(fields: seq<string>, values: seq<FieldValue>)
    requires |fields| == |values| > 0
    requires forall i :: 0 <= i < |values| ==> values[i].Text? || values[i].Flag?
    ensures var first := Prefix(fields[0]) + ValueText(values[0]);
            RenderFields(fields, values)
            == if |fields| == 1 then first else first + " " + RenderFields(fields[1..], values[1..])
  {
  }

  lemma PieceText(field: string, v: FieldValue)
    requires v.Text? || v.Flag?
    ensures Prefix(field) + ValueText(v) == field + "=" + Spelled(v)
  {
    hide Escape;
  }

  lemma Regroup4(a: string, b: string, c: string)
    ensures a + " " + b + "=" + c == a + (" " + (b + "=" + c))
    ensures a + " " + (b + "=" + c) == a + (" " + (b + "=" + c))
  {
  }

  lemma Regroup(a: string, b: string, c: string)
    ensures a + (b + c) == (a + b) + c
  {
  }

  /** No kind holds the character that ends it. */
  predicate SpacelessKinds(table: Table) {
    forall kind :: kind in table.fields ==> ' ' !in kind
  }

  /** The table, as the fixture shared with the executor lists it. */
  lemma SharedTable()
    ensures IDENTITY_FIELDS.booleans == {"redeploy"}
    ensures var t := IDENTITY_FIELDS.fields;
            && t.Keys == {"provider", "bws-secret", "coolify-env", "coolify-env-hash", "coolify-env-held",
                          "gh-actions-secret", "keychain", "runtime-fetch", "shell-export"}
            && t["provider"] == ["name"] && t["bws-secret"] == ["uuid"]
            && t["coolify-env"] == ["instance", "resource_type", "uuid", "key", "redeploy"]
            && t["coolify-env-hash"] == ["instance", "resource_type", "uuid", "key", "entry"]
            && t["coolify-env-held"] == ["instance", "resource_type", "uuid", "key"]
            && t["gh-actions-secret"] == ["repo", "name"] && t["keychain"] == ["service", "account"]
            && t["runtime-fetch"] == ["repo", "ref"] && t["shell-export"] == ["file", "var"]
  {
  }

  lemma KnownKindsSpaceless()
    ensures SpacelessKinds(IDENTITY_FIELDS)
  {
  }

  lemma RawDecodeText(u: Outside, s: string, rest: string)
    ensures RawDecode(u, Quote(s) + rest) == Value(FieldValue.Text(s), |Quote(s)|)
  {
    hide ScanString, Escape;
    var t := Quote(s) + rest;
    assert t[1..] == Escape(s) + "\"" + rest;
    ScanQuoted(s, rest);
  }

  lemma RawDecodeFlag(u: Outside, b: bool, rest: string)
    ensures RawDecode(u, FlagText(b) + rest) == Value(Flag(b), |FlagText(b)|)
  {
    hide ScanString;
    var t := FlagText(b) + rest;
    if b {
      assert t[..4] == "true" && t[0] == 't';
    } else {
      assert t[..5] == "false" && t[0] == 'f' && t[..4][0] == 'f';
    }
  }

  lemma RawDecodeRendered(u: Outside, v: FieldValue, rest: string)
    requires v.Text? || v.Flag?
    ensures RawDecode(u, ValueText(v) + rest) == Value(v, |ValueText(v)|)
  {
    hide RawDecode, Quote, FlagText;
    match v
    case Text(s) => RawDecodeText(u, s, rest);
    case Flag(b) => RawDecodeFlag(u, b, rest);
  }

  lemma ScanOneRendered(
      u: Outside, table: Table, fields: seq<string>, v: FieldValue, more: string)
    requires |fields| > 0 && Admissible(u, table, fields[0], v)
    ensures ScanFields(u, table, fields, Prefix(fields[0]) + (ValueText(v) + more))
            == Prepend([v], ScanFields(u, table, fields[1..], AfterSpace(more)))
  {
    hide RawDecode, ValueOk, ValueText, AfterSpace, Strip;
    AdmissibleIff(u, table, fields[0], v);
    var t := Prefix(fields[0]) + (ValueText(v) + more);
    var body := t[|Prefix(fields[0])|..];
    assert StartsWith(t, Prefix(fields[0])) && body == ValueText(v) + more;
    RawDecodeRendered(u, v, more);
    assert body[|ValueText(v)|..] == more;
  }

  lemma {:induction false} ScanRendered(
      u: Outside, table: Table, fields: seq<string>, values: seq<FieldValue>)
    requires |fields| == |values|
    requires forall i :: 0 <= i < |values| ==> Admissible(u, table, fields[i], values[i])
    ensures forall i :: 0 <= i < |values| ==> values[i].Text? || values[i].Flag?
    ensures ScanFields(u, table, fields, RenderFields(fields, values)) == Values(values)
  {
    hide ScanFields, ValueOk, ValueText, Prefix, Admissible;
    forall i | 0 <= i < |values| ensures values[i].Text? || values[i].Flag? {
      assert Admissible(u, table, fields[i], values[i]);
      AdmissibleIff(u, table, fields[i], values[i]);
    }
    if |fields| == 0 {
      ScanNothing(u, table, RenderFields(fields, values));
      assert fields == [] && values == [];
    } else {
      var v := values[0];
      var more := if |fields| == 1 then "" else " " + RenderFields(fields[1..], values[1..]);
      assert RenderFields(fields, values) == Prefix(fields[0]) + (ValueText(v) + more);
      ScanOneRendered(u, table, fields, v, more);
      assert AfterSpace(more) == RenderFields(fields[1..], values[1..]);
      ScanRendered(u, table, fields[1..], values[1..]);
      assert values == [v] + values[1..];
    }
  }

  lemma SplitRendered(d: string, kind: string, rest: string)
    requires ' ' !in kind && (d == kind + " " + rest || (d == kind && rest == ""))
    ensures KindOf(d) == kind && RestOf(d) == rest
  {
    assert forall i :: 0 <= i < |kind| ==> d[i] == kind[i];
    assert |d| > |kind| ==> d[|kind|] == ' ';
    assert FirstSpace(d) == |kind|;
  }

  lemma RenderedAccepted(u: Outside, table: Table, d: string, n: Named)
    requires SpacelessKinds(table) && Names(u, table, d, n)
    ensures DestinationProblem(u, table, d) == None
    ensures KindOf(d) == n.kind
    ensures ScanFields(u, table, table.fields[n.kind], RestOf(d)) == Values(n.values)
  {
    hide ValueOk, ScanFields, Admissible;
    var fields := table.fields[n.kind];
    ScanRendered(u, table, fields, n.values);
    SplitRendered(d, n.kind, RenderFields(fields, n.values));
  }

  lemma AcceptedRendered(u: Outside, table: Table, d: string)
    requires DestinationProblem(u, table, d) == None
    ensures Names(u, table, d, Reading(u, table, d))
  {
    hide ValueOk, ScanFields, Admissible, Render, KindOf, RestOf;
    var fields := table.fields[KindOf(d)];
    ScanLength(u, table, fields, RestOf(d));
    var values := ScanFields(u, table, fields, RestOf(d)).values;
    forall i | 0 <= i < |values| ensures Admissible(u, table, fields[i], values[i]) {
      AdmissibleIff(u, table, fields[i], values[i]);
    }
  }

  /** What the parser reads off an accepted string. */
  function Reading(u: Outside, table: Table, d: string): Named
    requires DestinationProblem(u, table, d) == None
  {
    Named(KindOf(d), ScanFields(u, table, table.fields[KindOf(d)], RestOf(d)).values)
  }

  /** A string is accepted exactly when it is the rendering of something. */
  lemma AcceptedIffRendering(u: Outside, table: Table, d: string)
    requires SpacelessKinds(table)
    ensures DestinationProblem(u, table, d) == None <==> exists n :: Names(u, table, d, n)
  {
    hide DestinationProblem, Names;
    if DestinationProblem(u, table, d) == None {
      AcceptedRendered(u, table, d);
    }
    forall n | Names(u, table, d, n)
      ensures DestinationProblem(u, table, d) == None
    {
      RenderedAccepted(u, table, d, n);
    }
  }

  /** ... of one thing only. */
  lemma NamedOnce(u: Outside, table: Table, d: string, m: Named, n: Named)
    requires SpacelessKinds(table) && Names(u, table, d, m) && Names(u, table, d, n)
    ensures m == n
  {
    hide DestinationProblem, Names, ScanFields;
    RenderedAccepted(u, table, d, m);
    RenderedAccepted(u, table, d, n);
  }

  // ----- lists of destinations -----

  datatype ListProblem = NotSortedUnique | BadEntry(entry: string, problem: Problem) | NotOneProvider

  /** The members of a list, each once. */
  function Distinct(ds: seq<string>): (r: seq<string>)
    ensures forall d :: d in r <==> d in ds
    ensures NoRepeats(r)
  {
    if |ds| == 0 then []
    else
      assert ds == [ds[0]] + ds[1..];
      var rest := Distinct(ds[1..]);
      if ds[0] in rest then rest else [ds[0]] + rest
  }

  function EntryProblems(u: Outside, table: Table, ds: seq<string>): seq<ListProblem> {
    if |ds| == 0 then []
    else
      (match DestinationProblem(u, table, ds[0])
       case None => []
       case Some(p) => [BadEntry(ds[0], p)]) + EntryProblems(u, table, ds[1..])
  }

  function Providers(ds: seq<string>): nat {
    if |ds| == 0 then 0
    else (if StartsWith(ds[0], "provider ") then 1 else 0) + Providers(ds[1..])
  }

  /** `_destination_errors`. */
  function ListProblems(u: Outside, table: Table, ds: seq<string>): seq<ListProblem> {
    if ds != SortBy(Distinct(ds), CodePoints) then [NotSortedUnique]
    else EntryProblems(u, table, ds) + if Providers(ds) != 1 then [NotOneProvider] else []
  }

  ghost predicate Ascending(ds: seq<string>) {
    forall i, j :: 0 <= i < j < |ds| ==> CodePointLess(ds[i], ds[j])
  }

  lemma AscendingDistinct(ds: seq<string>, i: nat, j: nat)
    requires Ascending(ds) && i < j < |ds|
    ensures ds[i] != ds[j]
  {
    CodePointOrderStrictTotal(ds[i], ds[j]);
  }

  lemma StringRanksSeparate(ds: multiset<string>)
    ensures Separates(CodePoints, ds)
  {
    forall x, y | CodePoints(x) == CodePoints(y) ensures x == y {
      CodePointsInjective(x, y);
    }
  }

  lemma AscendingIsSorted(ds: seq<string>)
    requires Ascending(ds)
    ensures Sorted(ds, CodePoints)
  {
    forall i, j | 0 <= i < j < |ds| ensures LexLeq(CodePoints(ds[i]), CodePoints(ds[j])) {
      assert CodePointLess(ds[i], ds[j]);
    }
  }

  /** Strictly ascending lists with the same members are the same list. */
  lemma AscendingUnique(a: seq<string>, b: seq<string>)
    requires Ascending(a) && Ascending(b) && forall d :: d in a <==> d in b
    ensures a == b
  {
    forall i, j | 0 <= i < j < |a| ensures a[i] != a[j] { AscendingDistinct(a, i, j); }
    forall i, j | 0 <= i < j < |b| ensures b[i] != b[j] { AscendingDistinct(b, i, j); }
    SameItems(a, b);
    AscendingIsSorted(a);
    AscendingIsSorted(b);
    StringRanksSeparate(multiset(a));
    SortedUnique(a, b, CodePoints);
  }

  /** `destinations == sorted(set(destinations))`. */
  lemma SortedUniqueMeansAscending(ds: seq<string>)
    ensures ds == SortBy(Distinct(ds), CodePoints) <==> Ascending(ds)
  {
    hide SortBy;
    var u := Distinct(ds);
    var s := SortBy(u, CodePoints);
    SortBySorted(u, CodePoints);
    if ds == s {
      forall i, j | 0 <= i < j < |ds| ensures CodePointLess(ds[i], ds[j]) {
        Arranged(u, s);
        assert LexLeq(CodePoints(s[i]), CodePoints(s[j]));
        if CodePoints(s[i]) == CodePoints(s[j]) { CodePointsInjective(s[i], s[j]); }
      }
    }
    if Ascending(ds) {
      forall i, j | 0 <= i < j < |ds| ensures ds[i] != ds[j] { AscendingDistinct(ds, i, j); }
      SameItems(ds, u);
      AscendingIsSorted(ds);
      StringRanksSeparate(multiset(ds));
      SortedUnique(ds, s, CodePoints);
    }
  }

  lemma {:induction false} NoEntryProblems(u: Outside, table: Table, ds: seq<string>)
    ensures EntryProblems(u, table, ds) == [] <==>
              forall d :: d in ds ==> DestinationProblem(u, table, d) == None
  {
    hide DestinationProblem;
    if |ds| > 0 {
      assert ds == [ds[0]] + ds[1..];
      NoEntryProblems(u, table, ds[1..]);
    }
  }

  /** The lists `_destination_errors` has nothing to say about. */
  ghost predicate Accepted(u: Outside, table: Table, ds: seq<string>) {
    && Ascending(ds)
    && (forall d :: d in ds ==> exists n :: Names(u, table, d, n))
    && OneProvider(ds)
  }

  ghost predicate Provides(d: string) { "provider " <= d }

  /** Exactly one place holds an entry for a provider. */
  ghost predicate OneProvider(ds: seq<string>) {
    exists i :: ProvidesOnlyAt(ds, i)
  }

  ghost predicate ProvidesOnlyAt(ds: seq<string>, i: int) {
    0 <= i < |ds| && forall j :: 0 <= j < |ds| ==> (Provides(ds[j]) <==> j == i)
  }

  lemma ProvidersStep(ds: seq<string>)
    requires |ds| > 0
    ensures Providers(ds) == (if Provides(ds[0]) then 1 else 0) + Providers(ds[1..])
  {
  }

  lemma {:induction false} NoProviders(ds: seq<string>)
    ensures Providers(ds) == 0 <==> forall j :: 0 <= j < |ds| ==> !Provides(ds[j])
  {
    if |ds| > 0 {
      hide Providers, Provides;
      ProvidersStep(ds);
      NoProviders(ds[1..]);
      assert forall j :: 0 < j < |ds| ==> ds[j] == ds[1..][j - 1];
    }
  }

  lemma {:induction false} ProvidersOnce(ds: seq<string>)
    ensures Providers(ds) == 1 <==> OneProvider(ds)
  {
    if |ds| > 0 {
      hide Providers, Provides;
      var rest := ds[1..];
      ProvidersStep(ds);
      NoProviders(rest);
      ProvidersOnce(rest);
      assert forall j :: 0 < j < |ds| ==> ds[j] == rest[j - 1];
      assert forall j :: 0 <= j < |rest| ==> ds[j + 1] == rest[j];
      if Providers(ds) == 1 {
        if Provides(ds[0]) {
          assert ProvidesOnlyAt(ds, 0);
        } else {
          var i :| ProvidesOnlyAt(rest, i);
          assert ProvidesOnlyAt(ds, i + 1);
        }
      }
      if OneProvider(ds) {
        var i :| ProvidesOnlyAt(ds, i);
        if i > 0 { assert ProvidesOnlyAt(rest, i - 1); }
      }
    }
  }

  /** What `_destination_errors` says: of an unsorted list that alone; of a sorted one what is wrong with each
  entry, and that there is not one provider. */
  lemma {:induction false} ListProblemsTold(u: Outside, table: Table, ds: seq<string>, p: ListProblem)
    ensures p in ListProblems(u, table, ds) <==>
              if !Ascending(ds) then p == NotSortedUnique
              else
                || (p == NotOneProvider && !OneProvider(ds))
                || exists d, why ::
                     d in ds && DestinationProblem(u, table, d) == Some(why) && p == BadEntry(d, why)
  {
    hide SortBy, DestinationProblem, OneProvider;
    SortedUniqueMeansAscending(ds);
    ProvidersOnce(ds);
    EntryProblemsTold(u, table, ds, p);
  }

  lemma {:induction false} EntryProblemsTold(u: Outside, table: Table, ds: seq<string>, p: ListProblem)
    ensures p in EntryProblems(u, table, ds) <==>
              exists d, why :: d in ds && DestinationProblem(u, table, d) == Some(why) && p == BadEntry(d, why)
  {
    hide DestinationProblem;
    if |ds| > 0 {
      assert ds == [ds[0]] + ds[1..];
      EntryProblemsTold(u, table, ds[1..], p);
    }
  }

  lemma AcceptedIffNoProblems(u: Outside, table: Table, ds: seq<string>)
    requires SpacelessKinds(table)
    ensures ListProblems(u, table, ds) == [] <==> Accepted(u, table, ds)
  {
    hide DestinationProblem, Names, SortBy, OneProvider;
    SortedUniqueMeansAscending(ds);
    ProvidersOnce(ds);
    NoEntryProblems(u, table, ds);
    forall d ensures DestinationProblem(u, table, d) == None <==> exists n :: Names(u, table, d, n) {
      AcceptedIffRendering(u, table, d);
    }
  }

  ghost predicate NamedIn(u: Outside, table: Table, ds: seq<string>, n: Named) {
    exists d :: d in ds && Names(u, table, d, n)
  }

  lemma SameNamesSameEntries(u: Outside, table: Table, a: seq<string>, b: seq<string>)
    requires Accepted(u, table, a)
    requires forall n :: NamedIn(u, table, a, n) ==> NamedIn(u, table, b, n)
    ensures forall d :: d in a ==> d in b
  {
    forall d | d in a ensures d in b {
      var n :| Names(u, table, d, n);
      assert NamedIn(u, table, a, n);
      var e :| e in b && Names(u, table, e, n);
      assert e == d;
    }
  }

  /** Two accepted lists name the same destinations exactly when they are the same list. */
  lemma ListsEqualIffSameNames(u: Outside, table: Table, a: seq<string>, b: seq<string>)
    requires SpacelessKinds(table)
    requires ListProblems(u, table, a) == [] && ListProblems(u, table, b) == []
    ensures a == b <==> forall n :: NamedIn(u, table, a, n) <==> NamedIn(u, table, b, n)
  {
    hide ListProblems, NamedIn, Names;
    AcceptedIffNoProblems(u, table, a);
    AcceptedIffNoProblems(u, table, b);
    if forall n :: NamedIn(u, table, a, n) <==> NamedIn(u, table, b, n) {
      SameNamesSameEntries(u, table, a, b);
      SameNamesSameEntries(u, table, b, a);
      AscendingUnique(a, b);
    }
  }

  lemma StartsWithKind(d: string, kind: string)
    requires ' ' !in kind
    ensures StartsWith(d, kind + " ") ==> KindOf(d) == kind
  {
    if StartsWith(d, kind + " ") {
      assert d == kind + " " + d[|kind| + 1..];
      SplitRendered(d, kind, d[|kind| + 1..]);
    }
  }

  /** The one complaint about a kind: no known kind is the text, or is followed in it by a space. */
  lemma UnknownKindIff(u: Outside, table: Table, d: string)
    requires SpacelessKinds(table)
    ensures DestinationProblem(u, table, d) == Some(UnknownKind) <==>
              !exists kind :: kind in table.fields && (d == kind || StartsWith(d, kind + " "))
  {
    hide RendersAs, ScanFields;
    var k := KindOf(d);
    if k in table.fields {
      ScanNeverUnknown(u, table, table.fields[k], RestOf(d));
      if FirstSpace(d) < |d| {
        assert d[..|k| + 1] == k + " ";
      } else {
        assert d == k;
      }
    }
    forall kind | kind in table.fields && (d == kind || StartsWith(d, kind + " "))
      ensures KindOf(d) == kind
    {
      if d == kind { SplitRendered(d, kind, ""); } else { StartsWithKind(d, kind); }
    }
  }

  lemma {:induction false} ScanNeverUnknown(u: Outside, table: Table, fields: seq<string>, t: string)
    ensures ScanFields(u, table, fields, t) != Stopped(UnknownKind)
  {
    hide RawDecode, ValueOk;
    if |fields| > 0 && StartsWith(t, Prefix(fields[0])) {
      var body := t[|Prefix(fields[0])|..];
      match RawDecode(u, body)
      case Nothing =>
      case Value(v, used) => ScanNeverUnknown(u, table, fields[1..], AfterSpace(body[used..]));
    }
  }

  // ----- what is said about the rest -----

  /** The text after some fields that are in order: the fields written out, and a space if there are any. */
  function After(fields: seq<string>, values: seq<FieldValue>, rest: string): string
    requires |fields| == |values|
    requires forall i :: 0 <= i < |values| ==> values[i].Text? || values[i].Flag?
  {
    if |fields| == 0 then rest
    else Prefix(fields[0]) + (ValueText(values[0]) + (" " + After(fields[1..], values[1..], rest)))
  }

  lemma {:induction false} ScanAfter(
      u: Outside, table: Table, done: seq<string>, more: seq<string>, values: seq<FieldValue>, rest: string)
    requires |done| == |values|
    requires forall i :: 0 <= i < |values| ==> Admissible(u, table, done[i], values[i])
    ensures forall i :: 0 <= i < |values| ==> values[i].Text? || values[i].Flag?
    ensures ScanFields(u, table, done + more, After(done, values, rest))
            == Prepend(values, ScanFields(u, table, more, rest))
  {
    hide ScanFields, ValueOk, ValueText, Prefix, Admissible;
    forall i | 0 <= i < |values| ensures values[i].Text? || values[i].Flag? {
      assert Admissible(u, table, done[i], values[i]);
      AdmissibleIff(u, table, done[i], values[i]);
    }
    if |done| == 0 {
      assert done + more == more && values == [];
      PrependNothing(ScanFields(u, table, more, rest));
    } else {
      var tail := After(done[1..], values[1..], rest);
      var fields := done + more;
      assert fields[0] == done[0] && fields[1..] == done[1..] + more;
      ScanOneRendered(u, table, fields, values[0], " " + tail);
      assert AfterSpace(" " + tail) == tail;
      ScanAfter(u, table, done[1..], more, values[1..], rest);
      PrependMoreTo(values, ScanFields(u, table, more, rest));
    }
  }

  lemma PrependNothing(s: Scan)
    ensures Prepend([], s) == s
  {
    if s.Values? { assert [] + s.values == s.values; }
  }

  lemma PrependMoreTo(values: seq<FieldValue>, s: Scan)
    requires |values| > 0
    ensures Prepend([values[0]], Prepend(values[1..], s)) == Prepend(values, s)
  {
    if s.Values? { assert [values[0]] + (values[1..] + s.values) == values + s.values; }
  }

  /** No value starts `t`: not a string that ends, not a boolean, and nothing else either. */
  ghost predicate NoJson(u: Outside, t: string) {
    && !("true" <= t) && !("false" <= t)
    && (if "\"" <= t then ScanString(t[1..]) == Bad else u.otherJson(t) == None)
  }

  /** After a known kind and fields that are in order, the complaint is about the first thing that is not:
  the name of the next field, that no value follows it, or the value. */
  lemma ProblemsTold(
      u: Outside, table: Table, kind: string, values: seq<FieldValue>, rest: string)
    requires SpacelessKinds(table) && kind in table.fields && |values| < |table.fields[kind]|
    requires forall i :: 0 <= i < |values| ==> Admissible(u, table, table.fields[kind][i], values[i])
    ensures forall i :: 0 <= i < |values| ==> values[i].Text? || values[i].Flag?
    ensures var fields, k := table.fields[kind], |values|;
            var problem := DestinationProblem(u, table, kind + " " + After(fields[..k], values, rest));
            && (!(fields[k] + "=" <= rest) ==> problem == Some(NeedsField(fields[k])))
            && (forall body :: rest == fields[k] + "=" + body && NoJson(u, body) ==>
                  problem == Some(NoJsonValue(fields[k])))
            && (forall v: FieldValue, more ::
                  (v.Text? || v.Flag?) && rest == fields[k] + "=" + (ValueText(v) + more)
                  && !Admissible(u, table, fields[k], v) ==>
                    problem == Some(BadValue(fields[k])))
  {
    hide ScanFields, ValueOk, Admissible, RendersAs, NoJson, ValueText, After, SpacelessKinds, KindOf, RestOf;
    var fields, k := table.fields[kind], |values|;
    assert fields[..k] + fields[k..] == fields;
    ScanAfter(u, table, fields[..k], fields[k..], values, rest);
    var text := After(fields[..k], values, rest);
    NoSpaceIn(table, kind);
    SplitRendered(kind + " " + text, kind, text);
    NextTold(u, table, fields[k..], rest);
  }

  lemma NoSpaceIn(table: Table, kind: string)
    requires SpacelessKinds(table) && kind in table.fields
    ensures ' ' !in kind
  {
  }

  lemma NextTold(u: Outside, table: Table, fields: seq<string>, rest: string)
    requires |fields| > 0
    ensures var name, scan := fields[0], ScanFields(u, table, fields, rest);
            && (!(name + "=" <= rest) ==> scan == Stopped(NeedsField(name)))
            && (forall body :: rest == name + "=" + body && NoJson(u, body) ==>
                  scan == Stopped(NoJsonValue(name)))
            && (forall v: FieldValue, more ::
                  (v.Text? || v.Flag?) && rest == name + "=" + (ValueText(v) + more)
                  && !Admissible(u, table, name, v) ==>
                    scan == Stopped(BadValue(name)))
  {
    hide RawDecode, ValueOk, Admissible, NoJson, ValueText;
    var name := fields[0];
    forall body | rest == name + "=" + body && NoJson(u, body)
      ensures ScanFields(u, table, fields, rest) == Stopped(NoJsonValue(name))
    {
      NothingDecoded(u, body);
      assert rest[|Prefix(name)|..] == body;
    }
    forall v: FieldValue, more | (v.Text? || v.Flag?) && rest == name + "=" + (ValueText(v) + more)
                                 && !Admissible(u, table, name, v)
      ensures ScanFields(u, table, fields, rest) == Stopped(BadValue(name))
    {
      AdmissibleIff(u, table, name, v);
      RawDecodeRendered(u, v, more);
      assert rest[|Prefix(name)|..] == ValueText(v) + more;
    }
  }

  lemma NothingDecoded(u: Outside, t: string)
    requires NoJson(u, t)
    ensures RawDecode(u, t) == Nothing
  {
    hide ScanString, Quote;
    assert "true" == ['t', 'r', 'u', 'e'];
  }

  /** Once every field is there nothing may follow, not even a space. */
  lemma NothingMayFollow(u: Outside, table: Table, kind: string, values: seq<FieldValue>, rest: string)
    requires SpacelessKinds(table) && kind in table.fields && |values| == |table.fields[kind]|
    requires forall i :: 0 <= i < |values| ==> Admissible(u, table, table.fields[kind][i], values[i])
    ensures forall i :: 0 <= i < |values| ==> values[i].Text? || values[i].Flag?
    ensures DestinationProblem(u, table, kind + " " + After(table.fields[kind], values, rest))
            == Some(NotCanonical)
  {
    hide ScanFields, ValueOk, Admissible, ValueText, Prefix;
    var fields := table.fields[kind];
    ScanAfter(u, table, fields, [], values, rest);
    assert fields + [] == fields;
    ScanNothing(u, table, rest);
    assert values + [] == values;
    var d := kind + " " + After(fields, values, rest);
    SplitRendered(d, kind, After(fields, values, rest));
    AfterLonger(fields, values, rest);
  }

  lemma {:induction false} AfterLonger(fields: seq<string>, values: seq<FieldValue>, rest: string)
    requires |fields| == |values|
    requires forall i :: 0 <= i < |values| ==> values[i].Text? || values[i].Flag?
    ensures fields != [] ==> |After(fields, values, rest)| > |RenderFields(fields, values)|
  {
    hide ValueText, Prefix;
    if |fields| > 0 { AfterLonger(fields[1..], values[1..], rest); }
  }

  lemma ProviderPrefix()
    ensures "provider" + " " == "provider "
    ensures ' ' !in "provider"
  {
  }

  /** An entry counted as a provider is one that names a provider. */
  lemma ProviderEntries(u: Outside, table: Table, d: string, n: Named)
    requires SpacelessKinds(table) && Names(u, table, d, n)
    requires n.kind == "provider" ==> table.fields["provider"] != []
    ensures StartsWith(d, "provider ") <==> n.kind == "provider"
  {
    hide Admissible, ScanFields, RenderFields, KindOf, RestOf, DestinationProblem;
    RenderedAccepted(u, table, d, n);
    ProviderPrefix();
    var kind := "provider";
    StartsWithKind(d, kind);
    if n.kind == kind {
      assert d[..|kind| + 1] == kind + " ";
    }
  }
}
