/** The rest of `approval_policy.py`: the approver string a policy signs with, and the grant tables of
the three schema versions. */
module PolicyDocument {
  import opened Values
  import opened Sequences
  import opened JsonText
  import opened ApprovalPolicy

  // ----- policy:<profile>@v<version> -----

  /** `approver_for`. */
  function Approver(profile: string, version: int): string {
    POLICY_PREFIX + (profile + "@" + ("v" + IntText(version)))
  }

  predicate NameChar(c: char) { 'a' <= c <= 'z' || '0' <= c <= '9' }

  predicate ProfileName(s: string) {
    && |s| > 0 && NameChar(s[0])
    && forall i :: 0 < i < |s| ==> NameChar(s[i]) || s[i] == '-'
  }

  predicate VersionPart(s: string) {
    && |s| >= 2 && s[0] == 'v' && '1' <= s[1] <= '9'
    && forall i :: 2 <= i < |s| ==> IsDigit(s[i])
  }

  /** `$` also matches before one newline at the end. */
  function Chomp(s: string): string {
    if |s| > 0 && s[|s| - 1] == '\n' then s[..|s| - 1] else s
  }

  function FirstAt(s: string): (n: nat)
    ensures n <= |s|
    ensures n < |s| ==> s[n] == '@'
    ensures forall i :: 0 <= i < n ==> s[i] != '@'
  {
    if |s| == 0 || s[0] == '@' then 0 else 1 + FirstAt(s[1..])
  }

  const POLICY_PREFIX := "policy:"

  /** `POLICY_APPROVER_RE` matches. */
  predicate IsPolicyApprover(s: string) {
    var b := Chomp(s);
    |b| >= |POLICY_PREFIX| && b[..|POLICY_PREFIX|] == POLICY_PREFIX && Signed(b[|POLICY_PREFIX|..])
  }

  /** A profile name, an at sign, and a version. */
  predicate Signed(rest: string) {
    var n := FirstAt(rest);
    n < |rest| && ProfileName(rest[..n]) && VersionPart(rest[n + 1..])
  }

  lemma FirstAtSplits(name: string, rest: string)
    requires '@' !in name
    ensures FirstAt(name + "@" + rest) == |name|
  {
    var s := name + "@" + rest;
    assert forall i :: 0 <= i < |name| ==> s[i] == name[i];
    assert s[|name|] == '@';
  }

  lemma PrefixedApprover(rest: string)
    requires |rest| > 0 && rest[|rest| - 1] != '\n'
    ensures IsPolicyApprover(POLICY_PREFIX + rest) <==> Signed(rest)
  {
    hide Signed;
    var s := POLICY_PREFIX + rest;
    assert s[|s| - 1] == rest[|rest| - 1];
    assert s[..|POLICY_PREFIX|] == POLICY_PREFIX && s[|POLICY_PREFIX|..] == rest;
  }

  lemma VersionText(n: nat)
    requires n >= 1
    ensures VersionPart("v" + Digits(n))
    ensures IsDigit(Digits(n)[|Digits(n)| - 1])
  {
    hide Digits;
    var v := "v" + Digits(n);
    assert v[1] == Digits(n)[0] && IsDigit(Digits(n)[0]);
    assert forall i :: 2 <= i < |v| ==> v[i] == Digits(n)[i - 1];
  }

  /** A signature is recognised exactly when the profile's name is well formed. */
  lemma ApproverRecognised(profile: string, version: int)
    requires version >= 1
    ensures IsPolicyApprover(Approver(profile, version)) <==> ProfileName(profile)
  {
    hide Digits, IsPolicyApprover, VersionPart, ProfileName, FirstAt;
    var v := "v" + Digits(version);
    VersionText(version);
    var rest := profile + "@" + v;
    assert rest[|rest| - 1] == Digits(version)[|Digits(version)| - 1];
    PrefixedApprover(rest);
    if '@' !in profile {
      FirstAtSplits(profile, v);
      assert rest[..|profile|] == profile && rest[|profile| + 1..] == v;
    } else {
      AtInsideName(profile, v);
    }
  }

  lemma AtInsideName(name: string, tail: string)
    requires '@' in name
    ensures !ProfileName(name)
    ensures var rest := name + "@" + tail;
            FirstAt(rest) < |rest| && !VersionPart(rest[FirstAt(rest) + 1..])
  {
    var rest := name + "@" + tail;
    var k :| 0 <= k < |name| && name[k] == '@';
    assert rest[k] == '@';
    var n := FirstAt(rest);
    assert n <= k;
    var v := rest[n + 1..];
    var j := |name| - n - 1;
    assert rest[|name|] == '@';
    assert 0 <= j < |v| && v[j] == rest[n + 1 + j];
  }

  /** Lower-case letters, digits and dashes, no dash first. */
  ghost predicate ProfileWord(s: string) {
    s != "" && s[0] != '-' && forall c :: c in s ==> c == '-' || 'a' <= c <= 'z' || '0' <= c <= '9'
  }

  lemma ProfileWordIff(s: string)
    ensures ProfileName(s) <==> ProfileWord(s)
  {
    if ProfileWord(s) {
      assert s[0] in s;
      forall i | 0 <= i < |s| ensures NameChar(s[i]) || s[i] == '-' {
        assert s[i] in s;
      }
    }
  }

  /** The strings a policy can have signed with; a newline at the end is overlooked. */
  ghost predicate PolicySignature(s: string) {
    exists profile, version: nat ::
      && version >= 1 && ProfileWord(profile)
      && (s == "policy:" + profile + "@v" + Digits(version)
          || s == "policy:" + profile + "@v" + Digits(version) + "\n")
  }

  lemma SignatureText(profile: string, version: nat)
    ensures Approver(profile, version) == "policy:" + profile + "@v" + Digits(version)
  {
    var v := Digits(version);
    assert POLICY_PREFIX + (profile + "@" + ("v" + v)) == "policy:" + profile + "@v" + v;
  }

  lemma VersionDigits(v: string)
    requires VersionPart(v)
    ensures |v| >= 2 && v == "v" + v[1..] && v[1..][0] != '0'
    ensures forall i :: 0 <= i < |v| - 1 ==> IsDigit(v[1..][i])
  {
    var d := v[1..];
    assert forall i :: 0 <= i < |d| ==> d[i] == v[i + 1];
  }

  lemma SignedParts(rest: string) returns (profile: string, version: nat)
    requires Signed(rest)
    ensures version >= 1 && ProfileName(profile) && rest == profile + "@" + ("v" + Digits(version))
  {
    hide ProfileName, Digits, DigitsValue, VersionPart;
    var n := FirstAt(rest);
    var v := rest[n + 1..];
    VersionDigits(v);
    DigitsOfValue(v[1..]);
    profile, version := rest[..n], DigitsValue(v[1..]);
    assert rest == rest[..n] + "@" + v;
  }

  lemma ChompedSignature(profile: string, version: nat)
    requires version >= 1
    ensures var a := Approver(profile, version);
            Chomp(a) == a && Chomp(a + "\n") == a
  {
    VersionText(version);
    var a := Approver(profile, version);
    var d := Digits(version);
    assert a[|a| - 1] == d[|d| - 1];
    assert (a + "\n")[..|a|] == a;
  }

  /** The recognising pattern matches exactly the signatures of well-formed profiles. */
  lemma PolicyApproverIff(s: string)
    ensures IsPolicyApprover(s) <==> PolicySignature(s)
  {
    hide ProfileName, ProfileWord, Signed, Digits, Approver;
    var b := Chomp(s);
    if IsPolicyApprover(s) {
      var rest := b[|POLICY_PREFIX|..];
      var profile, version := SignedParts(rest);
      ProfileWordIff(profile);
      SignatureIs(profile, version);
      assert b == POLICY_PREFIX + rest;
      assert s == b || s == b + "\n";
    }
    forall profile, version: nat |
      version >= 1 && ProfileWord(profile)
      && (s == "policy:" + profile + "@v" + Digits(version)
          || s == "policy:" + profile + "@v" + Digits(version) + "\n")
      ensures IsPolicyApprover(s)
    {
      ProfileWordIff(profile);
      SignatureText(profile, version);
      ChompedSignature(profile, version);
      ApproverRecognised(profile, version);
      SameChomp(s, Approver(profile, version));
    }
  }

  lemma SignatureIs(profile: string, version: nat)
    ensures POLICY_PREFIX + (profile + "@" + ("v" + Digits(version)))
            == "policy:" + profile + "@v" + Digits(version)
  {
    SignatureText(profile, version);
  }

  lemma SameChomp(s: string, t: string)
    requires Chomp(s) == Chomp(t)
    ensures IsPolicyApprover(s) == IsPolicyApprover(t)
  {
    hide Signed;
  }

  /** A signature names one profile and one version, so no grant can be borrowed. */
  lemma ApproverNamesOneGrant(p: string, q: string, v: int, w: int)
    requires v >= 1 && w >= 1 && ProfileName(p) && ProfileName(q)
    requires Approver(p, v) == Approver(q, w)
    ensures p == q && v == w
  {
    hide Digits, DigitsValue, FirstAt;
    var a, b := "v" + Digits(v), "v" + Digits(w);
    var s, t := p + "@" + a, q + "@" + b;
    DropPrefix(s, t);
    FirstAtSplits(p, a);
    FirstAtSplits(q, b);
    assert s[..|p|] == p && t[..|q|] == q;
    assert s[|p| + 1..] == a && t[|q| + 1..] == b;
    assert a[1..] == Digits(v) && b[1..] == Digits(w);
    DigitsRoundTrip(v);
    DigitsRoundTrip(w);
  }

  lemma DropPrefix(s: string, t: string)
    requires POLICY_PREFIX + s == POLICY_PREFIX + t
    ensures s == t
  {
    assert (POLICY_PREFIX + s)[|POLICY_PREFIX|..] == s;
    assert (POLICY_PREFIX + t)[|POLICY_PREFIX|..] == t;
  }

  // ----- grant tables -----

  type Table = map<string, Value>

  const COMMON_FIELDS: set<string> := {
    "rationale", "decided", "authority_allowed", "authority_requires_approval",
    "authority_prohibited", "max_attempts", "max_llm_calls", "acceptance_evidence_types",
    "acceptance_approvers", "max_impact"}

  function TargetFieldName(version: int): string {
    if version == 1 then "target_repositories" else "targets_from"
  }

  function ReachFieldName(version: int): string {
    if version <= 2 then "reach" else "reach_options"
  }

  function GetText(o: Oracle, t: Table, key: string): Option<string> {
    if key in t && t[key].Str? && !o.blank(t[key].s) then Some(t[key].s) else None
  }

  predicate NonEmptyStrings(ss: seq<string>) {
    forall i :: 0 <= i < |ss| ==> ss[i] != ""
  }

  function GetStrings(t: Table, key: string, allowEmpty: bool): Option<seq<string>> {
    if key !in t || !t[key].List? then None
    else
      var ss := Strings(t[key].items);
      if ss.None? || (ss.value == [] && !allowEmpty) || !NonEmptyStrings(ss.value) then None else ss
  }

  function GetPositive(t: Table, key: string): Option<int> {
    if key in t && t[key].Int? && t[key].i >= 1 then Some(t[key].i) else None
  }

  predicate ServiceName(s: string) {
    && |s| > 0 && 'a' <= s[0] <= 'z'
    && forall i :: 0 < i < |s| ==> 'a' <= s[i] <= 'z' || s[i] == '_'
  }

  const TARGETS_FROM_PREFIX := "sds-member-record:"

  function GetService(o: Oracle, t: Table): Option<string> {
    var source := GetText(o, t, "targets_from");
    var n := |TARGETS_FROM_PREFIX|;
    if source.None? then None
    else if |source.value| < n || source.value[..n] != TARGETS_FROM_PREFIX then None
    else if ServiceName(source.value[n..]) then Some(source.value[n..]) else None
  }

  function GetOption(v: Value): Option<seq<string>> {
    if !v.List? then None
    else
      var ss := Strings(v.items);
      if ss.None? || ss.value == [] || !NonEmptyStrings(ss.value) || !NoRepeats(ss.value) then None
      else ss
  }

  function GetOptions(items: seq<Value>): Option<seq<seq<string>>> {
    if |items| == 0 then Some([])
    else
      var first, rest := GetOption(items[0]), GetOptions(items[1..]);
      if first.None? || rest.None? then None else Some([first.value] + rest.value)
  }

  /** `_reach_options`: the list of options it parses, or `None` where it raises. */
  function ReachOptions(t: Table, version: int): Option<seq<seq<string>>> {
    if version < 3 then
      var one := GetStrings(t, "reach", false);
      if one.None? then None else Some([one.value])
    else if "reach_options" !in t || !t["reach_options"].List? || t["reach_options"].items == [] then None
    else GetOptions(t["reach_options"].items)
  }

  function Follow(parsed: seq<seq<string>>, rest: Option<seq<seq<string>>>): Option<seq<seq<string>>> {
    if rest.None? then None else Some(parsed + rest.value)
  }

  /** `_reach_options` as written, with the list it appends to. */
  method ParseReachOptions(t: Table, version: int) returns (r: Option<seq<seq<string>>>)
    ensures r == ReachOptions(t, version)
  {
    if version < 3 {
      var one := GetStrings(t, "reach", false);
      return if one.None? then None else Some([one.value]);
    }
    if "reach_options" !in t || !t["reach_options"].List? || t["reach_options"].items == [] {
      return None;
    }
    var options := t["reach_options"].items;
    var parsed: seq<seq<string>> := [];
    assert options[0..] == options;
    if GetOptions(options).Some? { assert parsed + GetOptions(options).value == GetOptions(options).value; }
    for i := 0 to |options|
      invariant GetOptions(options) == Follow(parsed, GetOptions(options[i..]))
    {
      assert options[i..][0] == options[i] && options[i..][1..] == options[i + 1..];
      var option := GetOption(options[i]);
      if option.None? {
        return None;
      }
      var rest := GetOptions(options[i + 1..]);
      if rest.Some? {
        assert parsed + ([option.value] + rest.value) == parsed + [option.value] + rest.value;
      }
      parsed := parsed + [option.value];
    }
    assert GetOptions(options[|options|..]) == Some([]);
    assert parsed + [] == parsed;
    return Some(parsed);
  }

  function ToSet(ss: seq<string>): set<string> {
    set s | s in ss
  }

  /** `_grant`; `None` where it raises `ApprovalPolicyError`. */
  function ParseGrant(o: Oracle, t: Table, version: int): Option<Grant>
    requires 1 <= version <= 3
  {
    var rationale, decided := GetText(o, t, "rationale"), GetText(o, t, "decided");
    var targets := if version == 1 then GetStrings(t, "target_repositories", false) else Some([]);
    var service := if version == 1 then None else GetService(o, t);
    var reach := ReachOptions(t, version);
    var allowed := GetStrings(t, "authority_allowed", false);
    var approval := GetStrings(t, "authority_requires_approval", true);
    var prohibited := GetStrings(t, "authority_prohibited", false);
    var attempts, calls := GetPositive(t, "max_attempts"), GetPositive(t, "max_llm_calls");
    var evidence := GetStrings(t, "acceptance_evidence_types", false);
    var approvers := GetStrings(t, "acceptance_approvers", false);
    var impact := GetStrings(t, "max_impact", false);
    if t.Keys != COMMON_FIELDS + {TargetFieldName(version), ReachFieldName(version)}
       || rationale.None? || decided.None? || targets.None? || (version > 1 && service.None?)
       || reach.None? || allowed.None? || approval.None? || prohibited.None? || attempts.None?
       || calls.None? || evidence.None? || approvers.None? || impact.None?
    then None
    else Some(Grant(
      rationale.value, decided.value, ToSet(targets.value), service, reach.value, allowed.value,
      approval.value, prohibited.value, attempts.value, calls.value, ToSet(evidence.value),
      ToSet(approvers.value), ToSet(impact.value)))
  }

  /** The schema-3 spelling of a schema-2 table: the one reach set becomes the only option. */
  function AsSchema3(t: Table): Table
    requires "reach" in t
  {
    (t - {"reach"})["reach_options" := List([t["reach"]])]
  }

  lemma SchemaFieldsMove(t: Table)
    requires "reach" in t && "reach_options" !in t
    ensures AsSchema3(t).Keys == COMMON_FIELDS + {TargetFieldName(3), ReachFieldName(3)}
            <==> t.Keys == COMMON_FIELDS + {TargetFieldName(2), ReachFieldName(2)}
    ensures forall k :: k != "reach" && k != "reach_options" && k in t ==>
              k in AsSchema3(t) && AsSchema3(t)[k] == t[k]
    ensures forall k :: k != "reach" && k != "reach_options" ==> (k in t <==> k in AsSchema3(t))
  {
    var r, ro := "reach", "reach_options";
    assert r !in COMMON_FIELDS && ro !in COMMON_FIELDS && r != ro;
    assert TargetFieldName(2) == TargetFieldName(3) && r != TargetFieldName(2) && ro != TargetFieldName(2);
    assert AsSchema3(t).Keys == t.Keys - {r} + {ro};
    var rest := COMMON_FIELDS + {TargetFieldName(2)};
    assert COMMON_FIELDS + {TargetFieldName(2), r} == rest + {r};
    assert COMMON_FIELDS + {TargetFieldName(3), ro} == rest + {ro};
    if t.Keys == rest + {r} {
      assert t.Keys - {r} + {ro} == rest + {ro};
    }
    if t.Keys - {r} + {ro} == rest + {ro} {
      forall k ensures k in t.Keys <==> k in rest + {r} {
        assert k in t.Keys - {r} + {ro} <==> k in rest + {ro};
      }
    }
  }

  lemma OneOption(v: Value)
    ensures GetOptions([v]) == if GetOption(v).None? then None else Some([GetOption(v).value])
  {
    assert GetOptions([v][1..]) == Some([]);
    if GetOption(v).Some? { assert [GetOption(v).value] + [] == [GetOption(v).value]; }
  }

  lemma ReachMoves(t: Table)
    requires "reach" in t
    ensures var old_, new_ := ReachOptions(t, 2), ReachOptions(AsSchema3(t), 3);
            && (new_.Some? ==> old_ == new_)
            && (old_.Some? ==> (new_.Some? <==> NoRepeats(old_.value[0])))
  {
    var items := [t["reach"]];
    assert AsSchema3(t)["reach_options"] == List(items);
    OneOption(t["reach"]);
  }

  /** A schema-2 grant and its schema-3 spelling load as the same grant, unless the reach set repeats
  a member: schema 2 lets that pass and schema 3 refuses it. */
  lemma Schema2IsSchema3WithOneOption(o: Oracle, t: Table)
    requires "reach" in t && "reach_options" !in t
    ensures ParseGrant(o, AsSchema3(t), 3).Some? ==>
              ParseGrant(o, AsSchema3(t), 3) == ParseGrant(o, t, 2)
    ensures ParseGrant(o, t, 2).Some? ==>
              (ParseGrant(o, AsSchema3(t), 3) == ParseGrant(o, t, 2)
               <==> NoRepeats(ParseGrant(o, t, 2).value.reachOptions[0]))
  {
    hide AsSchema3, ReachOptions, GetStrings, GetText, GetPositive, GetService, ToSet, NoRepeats;
    SchemaFieldsMove(t);
    ReachMoves(t);
    OtherFieldsStay(o, t);
  }

  // ----- a table that tells the two schemas apart -----

  function SampleField(key: string, reach: Value): Value {
    if key == "reach" then reach
    else if key == "targets_from" then Str(TARGETS_FROM_PREFIX + "a")
    else if key == "rationale" || key == "decided" then Str("why")
    else if key == "max_attempts" || key == "max_llm_calls" then Int(1)
    else List([Str("term")])
  }

  /** A complete schema-2 grant with this reach. */
  function SampleTable(reach: Value): Table {
    map k | k in COMMON_FIELDS + {TargetFieldName(2), ReachFieldName(2)} :: SampleField(k, reach)
  }

  lemma OneTerm()
    ensures Strings([Str("term")]) == Some(["term"]) && NonEmptyStrings(["term"])
  {
    assert [Str("term")][1..] == [];
    assert ["term"] == ["term"] + [];
  }

  lemma SampleValues(reach: Value)
    ensures SampleField("rationale", reach) == Str("why") && SampleField("decided", reach) == Str("why")
    ensures SampleField("max_attempts", reach) == Int(1) && SampleField("max_llm_calls", reach) == Int(1)
    ensures SampleField("targets_from", reach) == Str(TARGETS_FROM_PREFIX + "a")
    ensures SampleField("reach", reach) == reach
  {
    assert |"reach"| == 5 && |"targets_from"| == 12 && |"rationale"| == 9 && |"decided"| == 7;
    assert |"max_attempts"| == 12 && |"max_llm_calls"| == 13;
    assert "targets_from"[0] == 't' && "max_attempts"[0] == 'm';
  }

  lemma SampleKeys(reach: Value)
    ensures SampleTable(reach).Keys == COMMON_FIELDS + {TargetFieldName(2), ReachFieldName(2)}
    ensures TargetFieldName(2) == "targets_from" && ReachFieldName(2) == "reach"
    ensures "reach_options" !in SampleTable(reach)
  {
    hide SampleField;
    var key := "reach_options";
    assert |key| == 13 && key[0] == 'r' && "max_llm_calls"[0] == 'm';
  }

  lemma SampleTexts(o: Oracle, reach: Value)
    requires !o.blank("why") && !o.blank(TARGETS_FROM_PREFIX + "a")
    ensures var t := SampleTable(reach);
            && GetText(o, t, "rationale").Some? && GetText(o, t, "decided").Some?
            && GetPositive(t, "max_attempts").Some? && GetPositive(t, "max_llm_calls").Some?
            && "reach" in t && t["reach"] == reach
            && "targets_from" in t && t["targets_from"] == Str(TARGETS_FROM_PREFIX + "a")
  {
    hide SampleField;
    SampleValues(reach);
    SampleKeys(reach);
  }

  lemma SampleService(o: Oracle, reach: Value)
    requires !o.blank("why") && !o.blank(TARGETS_FROM_PREFIX + "a")
    ensures GetService(o, SampleTable(reach)).Some?
  {
    hide SampleTable, GetPositive;
    SampleTexts(o, reach);
    var s := TARGETS_FROM_PREFIX + "a";
    var n := |TARGETS_FROM_PREFIX|;
    assert s[..n] == TARGETS_FROM_PREFIX && s[n..] == "a";
  }

  lemma SampleLists(reach: Value)
    ensures var t := SampleTable(reach);
            && GetStrings(t, "authority_allowed", false).Some?
            && GetStrings(t, "authority_requires_approval", true).Some?
            && GetStrings(t, "authority_prohibited", false).Some?
            && GetStrings(t, "acceptance_evidence_types", false).Some?
            && GetStrings(t, "acceptance_approvers", false).Some?
            && GetStrings(t, "max_impact", false).Some?
  {
    hide Strings, NonEmptyStrings;
    OneTerm();
    var lists := ["authority_allowed", "authority_requires_approval", "authority_prohibited",
                  "acceptance_evidence_types", "acceptance_approvers", "max_impact"];
    forall i | 0 <= i < |lists| ensures SampleField(lists[i], reach) == List([Str("term")]) {
      assert |"reach"| == 5 && |"targets_from"| == 12 && |"rationale"| == 9 && |"decided"| == 7;
      assert |"max_attempts"| == 12 && |"max_llm_calls"| == 13;
      assert |lists[i]| == 10 || |lists[i]| > 13;
    }
    assert lists[0] == "authority_allowed" && lists[1] == "authority_requires_approval";
    assert lists[2] == "authority_prohibited" && lists[3] == "acceptance_evidence_types";
    assert lists[4] == "acceptance_approvers" && lists[5] == "max_impact";
  }

  lemma TwiceTheSame()
    ensures var v := List([Str("estate"), Str("estate")]);
            GetOption(v) == None && Strings(v.items) == Some(["estate", "estate"])
            && NonEmptyStrings(["estate", "estate"])
  {
    var items := [Str("estate"), Str("estate")];
    var ss := ["estate", "estate"];
    ItemsOfStrings(ss);
    assert ss[1..] == ["estate"] && ss[1..][1..] == [];
    assert StrItems(ss[1..]) == [Str("estate")];
    assert StrItems(ss) == items;
    assert ss[0] == ss[1];
  }

  lemma RepeatedReachReads(t: Table)
    requires "reach" in t && t["reach"] == List([Str("estate"), Str("estate")])
    ensures ReachOptions(t, 2) == Some([["estate", "estate"]])
  {
    hide Strings, NonEmptyStrings;
    TwiceTheSame();
  }

  /** A complete grant whose reach set repeats a member: schema 2 loads it, schema 3 refuses it. */
  lemma RepeatedReachMember(o: Oracle)
    requires !o.blank("why") && !o.blank(TARGETS_FROM_PREFIX + "a")
    ensures var t := SampleTable(List([Str("estate"), Str("estate")]));
            && "reach" in t && "reach_options" !in t
            && ParseGrant(o, t, 2).Some?
            && ParseGrant(o, AsSchema3(t), 3).None?
  {
    hide GetText, GetPositive, GetService, GetStrings, Strings, NonEmptyStrings, SampleField, ToSet;
    var v := List([Str("estate"), Str("estate")]);
    var t := SampleTable(v);
    SampleKeys(v);
    SampleTexts(o, v);
    SampleService(o, v);
    SampleLists(v);
    TwiceTheSame();
    RepeatedReachReads(t);
    ReachMoves(t);
    assert !NoRepeats(["estate", "estate"]) by {
      var ss := ["estate", "estate"];
      assert ss[0] == ss[1];
    }
  }

  lemma OtherFieldsStay(o: Oracle, t: Table)
    requires "reach" in t && "reach_options" !in t
    ensures forall k, allow :: k != "reach" && k != "reach_options" ==>
              GetStrings(AsSchema3(t), k, allow) == GetStrings(t, k, allow)
    ensures forall k :: k != "reach" && k != "reach_options" ==>
              GetText(o, AsSchema3(t), k) == GetText(o, t, k)
    ensures forall k :: k != "reach" && k != "reach_options" ==>
              GetPositive(AsSchema3(t), k) == GetPositive(t, k)
    ensures GetService(o, AsSchema3(t)) == GetService(o, t)
  {
    hide AsSchema3, NonEmptyStrings, ServiceName;
    SchemaFieldsMove(t);
  }
}
