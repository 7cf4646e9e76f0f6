/** A grant table read from the other side: which grant each table stands for, field by field. */
module PolicyGrants {
  import opened Values
  import opened Sequences
  import opened ApprovalPolicy
  import opened PolicyDocument

  ghost predicate Holds(t: Table, key: string, v: Value) {
    key in t && t[key] == v
  }

  ghost predicate TextAt(o: Oracle, t: Table, key: string, s: string) {
    Holds(t, key, Str(s)) && !o.blank(s)
  }

  ghost predicate ListAt(t: Table, key: string, ss: seq<string>, allowEmpty: bool) {
    Holds(t, key, List(StrItems(ss))) && (ss != [] || allowEmpty) && "" !in ss
  }

  ghost predicate CountAt(t: Table, key: string, n: int) {
    Holds(t, key, Int(n)) && n >= 1
  }

  ghost predicate SetAt(t: Table, key: string, members: set<string>) {
    exists ss: seq<string> :: ListAt(t, key, ss, false) && members == set s | s in ss
  }

  function OptionItems(options: seq<seq<string>>): (r: seq<Value>)
    ensures |r| == |options|
  {
    if options == [] then [] else [List(StrItems(options[0]))] + OptionItems(options[1..])
  }

  ghost predicate OptionOk(option: seq<string>) {
    option != [] && "" !in option && NoRepeats(option)
  }

  /** Lower-case letters and underscores, a letter first. */
  ghost predicate ServiceWord(s: string) {
    s != "" && s[0] != '_' && forall c :: c in s ==> c == '_' || 'a' <= c <= 'z'
  }

  lemma ServiceWordIff(s: string)
    ensures ServiceName(s) <==> ServiceWord(s)
  {
    if ServiceWord(s) {
      assert s[0] in s;
      forall i | 0 <= i < |s| ensures s[i] == '_' || 'a' <= s[i] <= 'z' {
        assert s[i] in s;
      }
    }
  }

  /** The targets a table names: a list of repositories, or from schema 2 on a service's member record. */
  ghost predicate TargetsAt(o: Oracle, t: Table, version: int, g: Grant) {
    if version == 1 then g.targetService == None && SetAt(t, "target_repositories", g.targetRepositories)
    else
      && g.targetRepositories == {}
      && exists service :: g.targetService == Some(service) && ServiceWord(service)
                           && TextAt(o, t, "targets_from", "sds-member-record:" + service)
  }

  /** One reach set, or from schema 3 on a list of them without repeats inside. */
  ghost predicate ReachAt(t: Table, version: int, options: seq<seq<string>>) {
    if version < 3 then exists ss: seq<string> :: options == [ss] && ListAt(t, "reach", ss, false)
    else
      && options != [] && Holds(t, "reach_options", List(OptionItems(options)))
      && forall i :: 0 <= i < |options| ==> OptionOk(options[i])
  }

  /** The table says `g`, and says nothing else. */
  ghost predicate Says(o: Oracle, t: Table, version: int, g: Grant) {
    && t.Keys == {"rationale", "decided", "authority_allowed", "authority_requires_approval",
                  "authority_prohibited", "max_attempts", "max_llm_calls", "acceptance_evidence_types",
                  "acceptance_approvers", "max_impact",
                  if version == 1 then "target_repositories" else "targets_from",
                  if version <= 2 then "reach" else "reach_options"}
    && TextAt(o, t, "rationale", g.rationale)
    && TextAt(o, t, "decided", g.decided)
    && TargetsAt(o, t, version, g)
    && ReachAt(t, version, g.reachOptions)
    && ListAt(t, "authority_allowed", g.authorityAllowed, false)
    && ListAt(t, "authority_requires_approval", g.authorityRequiresApproval, true)
    && ListAt(t, "authority_prohibited", g.authorityProhibited, false)
    && CountAt(t, "max_attempts", g.maxAttempts)
    && CountAt(t, "max_llm_calls", g.maxLlmCalls)
    && SetAt(t, "acceptance_evidence_types", g.acceptanceEvidenceTypes)
    && SetAt(t, "acceptance_approvers", g.acceptanceApprovers)
    && SetAt(t, "max_impact", g.maxImpact)
  }

  // ----- each reader -----

  lemma TextIff(o: Oracle, t: Table, key: string)
    ensures forall s :: GetText(o, t, key) == Some(s) <==> TextAt(o, t, key, s)
  {
  }

  lemma CountIff(t: Table, key: string)
    ensures forall n :: GetPositive(t, key) == Some(n) <==> CountAt(t, key, n)
  {
  }

  lemma NoEmptyIff(ss: seq<string>)
    ensures NonEmptyStrings(ss) <==> "" !in ss
  {
    if "" in ss {
      var i :| 0 <= i < |ss| && ss[i] == "";
    }
  }

  lemma ListIff(t: Table, key: string, allowEmpty: bool, ss: seq<string>)
    ensures GetStrings(t, key, allowEmpty) == Some(ss) <==> ListAt(t, key, ss, allowEmpty)
  {
    hide NonEmptyStrings;
    NoEmptyIff(ss);
    ItemsOfStrings(ss);
    if key in t && t[key].List? { StringsOfItems(t[key].items); }
  }

  lemma SetIff(t: Table, key: string, members: set<string>)
    ensures SetAt(t, key, members) <==>
              GetStrings(t, key, false).Some? && members == ToSet(GetStrings(t, key, false).value)
  {
    hide GetStrings, ListAt;
    forall ss: seq<string> ensures GetStrings(t, key, false) == Some(ss) <==> ListAt(t, key, ss, false) {
      ListIff(t, key, false, ss);
    }
    var got := GetStrings(t, key, false);
    if got.Some? { assert got == Some(got.value); }
  }

  lemma ServiceIff(o: Oracle, t: Table, service: string)
    ensures GetService(o, t) == Some(service) <==>
              ServiceName(service) && TextAt(o, t, "targets_from", "sds-member-record:" + service)
  {
    hide ServiceName;
    var prefix := "sds-member-record:";
    assert prefix == TARGETS_FROM_PREFIX;
    TextIff(o, t, "targets_from");
    var got := GetText(o, t, "targets_from");
    var s := prefix + service;
    assert s[..|prefix|] == prefix && s[|prefix|..] == service;
    if got.Some? && StartsWith(got.value, prefix) {
      assert got.value == prefix + got.value[|prefix|..];
    }
  }

  lemma OptionIff(v: Value, option: seq<string>)
    ensures GetOption(v) == Some(option) <==> v == List(StrItems(option)) && OptionOk(option)
  {
    hide NonEmptyStrings, NoRepeats;
    NoEmptyIff(option);
    ItemsOfStrings(option);
    if v.List? { StringsOfItems(v.items); }
  }

  lemma {:induction false} OptionsIff(items: seq<Value>, options: seq<seq<string>>)
    ensures GetOptions(items) == Some(options) <==>
              items == OptionItems(options) && forall i :: 0 <= i < |options| ==> OptionOk(options[i])
  {
    hide GetOption, OptionOk, StrItems;
    if items == [] || options == [] {
      assert items == [] ==> GetOptions(items) == Some([]);
    } else {
      OptionIff(items[0], options[0]);
      OptionsIff(items[1..], options[1..]);
      assert items == [items[0]] + items[1..] && options == [options[0]] + options[1..];
      assert forall i :: 0 < i < |options| ==> options[i] == options[1..][i - 1];
      var r := OptionItems(options);
      assert r[0] == List(StrItems(options[0])) && r[1..] == OptionItems(options[1..]);
    }
  }

  lemma ReachIff(t: Table, version: int, options: seq<seq<string>>)
    ensures ReachOptions(t, version) == Some(options) <==> ReachAt(t, version, options)
  {
    hide GetStrings, ListAt, GetOptions, OptionItems, OptionOk;
    if version < 3 {
      forall ss: seq<string> ensures GetStrings(t, "reach", false) == Some(ss) <==> ListAt(t, "reach", ss, false) {
        ListIff(t, "reach", false, ss);
      }
      var got := GetStrings(t, "reach", false);
      if got.Some? { assert got == Some(got.value) && ReachOptions(t, version) == Some([got.value]); }
    } else if "reach_options" in t && t["reach_options"].List? {
      OptionsIff(t["reach_options"].items, options);
    }
  }

  lemma TargetsIff(o: Oracle, t: Table, version: int, g: Grant)
    requires 1 <= version <= 3
    ensures TargetsAt(o, t, version, g) <==>
              if version == 1
              then && GetStrings(t, "target_repositories", false).Some? && g.targetService == None
                   && g.targetRepositories == ToSet(GetStrings(t, "target_repositories", false).value)
              else && GetService(o, t).Some? && g.targetService == GetService(o, t)
                   && g.targetRepositories == {}
  {
    hide GetStrings, GetService, SetAt, TextAt, ServiceName, ServiceWord;
    if version == 1 {
      SetIff(t, "target_repositories", g.targetRepositories);
    } else {
      forall service ensures GetService(o, t) == Some(service) <==>
          ServiceWord(service) && TextAt(o, t, "targets_from", "sds-member-record:" + service) {
        ServiceIff(o, t, service);
        ServiceWordIff(service);
      }
      var got := GetService(o, t);
      if got.Some? { assert got == Some(got.value); }
    }
  }

  lemma KeysIff(t: Table, version: int)
    requires 1 <= version <= 3
    ensures t.Keys == COMMON_FIELDS + {TargetFieldName(version), ReachFieldName(version)} <==>
            t.Keys == {"rationale", "decided", "authority_allowed", "authority_requires_approval",
                       "authority_prohibited", "max_attempts", "max_llm_calls",
                       "acceptance_evidence_types", "acceptance_approvers", "max_impact",
                       if version == 1 then "target_repositories" else "targets_from",
                       if version <= 2 then "reach" else "reach_options"}
  {
    var target := if version == 1 then "target_repositories" else "targets_from";
    var reach := if version <= 2 then "reach" else "reach_options";
    assert target == TargetFieldName(version) && reach == ReachFieldName(version);
    assert COMMON_FIELDS + {target, reach}
        == {"rationale", "decided", "authority_allowed", "authority_requires_approval",
            "authority_prohibited", "max_attempts", "max_llm_calls", "acceptance_evidence_types",
            "acceptance_approvers", "max_impact", target, reach};
  }

  lemma EmptySet()
    ensures ToSet([]) == {}
  {
  }

  /** The table loads as `g` exactly when it says `g`: every field under its own key, in its own shape, and
  no other key. */
  lemma GrantIff(o: Oracle, t: Table, version: int, g: Grant)
    requires 1 <= version <= 3
    ensures ParseGrant(o, t, version) == Some(g) <==> Says(o, t, version, g)
  {
    hide GetStrings, GetText, GetPositive, GetService, ReachOptions, ToSet, TextAt, ListAt, CountAt, SetAt,
         TargetsAt, ReachAt;
    KeysIff(t, version);
    TextIff(o, t, "rationale");
    TextIff(o, t, "decided");
    TargetsIff(o, t, version, g);
    ReachIff(t, version, g.reachOptions);
    ListIff(t, "authority_allowed", false, g.authorityAllowed);
    ListIff(t, "authority_requires_approval", true, g.authorityRequiresApproval);
    ListIff(t, "authority_prohibited", false, g.authorityProhibited);
    CountIff(t, "max_attempts");
    CountIff(t, "max_llm_calls");
    SetIff(t, "acceptance_evidence_types", g.acceptanceEvidenceTypes);
    SetIff(t, "acceptance_approvers", g.acceptanceApprovers);
    SetIff(t, "max_impact", g.maxImpact);
    EmptySet();
  }
}
