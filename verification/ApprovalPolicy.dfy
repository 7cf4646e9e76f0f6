/** `approval_policy.py`: why a standing policy objects to approving a revision, and the shape of a
revision it has no objection to. */
module ApprovalPolicy {
  import opened Values
  import opened Ordering

  /** What the policy asks of the world: the member record (unreadable: `None`), case folding, which
  lists of mixed values Python can sort, which unnamed types it cannot hash, and what is blank. */
  datatype Oracle = Oracle(
    granted: string -> Option<set<string>>,
    casefold: string -> string,
    sortable: seq<Value> -> bool,
    unhashable: string -> bool,
    blank: string -> bool)

  datatype Grant = Grant(
    rationale: string,
    decided: string,
    targetRepositories: set<string>,
    targetService: Option<string>,
    reachOptions: seq<seq<string>>,
    authorityAllowed: seq<string>,
    authorityRequiresApproval: seq<string>,
    authorityProhibited: seq<string>,
    maxAttempts: int,
    maxLlmCalls: int,
    acceptanceEvidenceTypes: set<string>,
    acceptanceApprovers: set<string>,
    maxImpact: set<string>)

  datatype Policy = Policy(version: int, grants: map<string, Option<Grant>>)

  datatype Refusal =
    | ProfileUndeclared
    | ProfileUnrecognised
    | ProfileNotPolicyApprovable
    | TargetRepositoryNotPermitted
    | MemberRecordUnreadable
    | ReachNotPermitted
    | AuthorityTermsNotPermitted
    | BudgetAboveCeiling
    | AcceptanceNotPermitted
    | MaxImpactNotPermitted
    | BumpVersionsNotDistinct
    | NotAStandingPackage

  /** What one refusal function does: no objection, an objection, or a `TypeError`. */
  datatype Verdict = Fine | Objects(why: Refusal) | Raises

  function Unless(ok: bool, why: Refusal): Verdict {
    if ok then Fine else Objects(why)
  }

  // ----- the eight refusal functions -----

  function ProfileField(pkg: seq<Member>, name: string): Option<Value> {
    SubField(Get(pkg, "profile_fields"), name)
  }

  function TargetVerdict(o: Oracle, pkg: seq<Member>, g: Grant): Verdict {
    match ProfileField(pkg, "target_repo")
    case Some(Str(target)) =>
      (match g.targetService
       case None => Unless(target in g.targetRepositories, TargetRepositoryNotPermitted)
       case Some(service) =>
         match o.granted(service)
         case None => Objects(MemberRecordUnreadable)
         case Some(repos) => Unless(o.casefold(target) in repos, TargetRepositoryNotPermitted))
    case _ => Objects(TargetRepositoryNotPermitted)
  }

  function StandingVerdict(pkg: seq<Member>): Verdict {
    Unless(ProfileField(pkg, "standing") == Some(Bool(true)), NotAStandingPackage)
  }

  function BumpVerdict(pkg: seq<Member>): Verdict {
    var before, after := ProfileField(pkg, "from_version"), ProfileField(pkg, "to_version");
    Unless(before.Some? && before.value.Str? && after.Some? && after.value.Str?
           && before.value.s != after.value.s, BumpVersionsNotDistinct)
  }

  /** The strings of a list of values, when all of them are strings. */
  function Strings(items: seq<Value>): (r: Option<seq<string>>)
    ensures r.Some? ==> |r.value| == |items|
  {
    if |items| == 0 then Some([])
    else
      var rest := Strings(items[1..]);
      if items[0].Str? && rest.Some? then Some([items[0].s] + rest.value) else None
  }

  function ReachVerdict(pkg: seq<Member>, g: Grant): Verdict {
    match Get(pkg, "reach")
    case Some(List(items)) =>
      var declared := Strings(items);
      Unless(declared.Some? && declared.value in g.reachOptions, ReachNotPermitted)
    case _ => Objects(ReachNotPermitted)
  }

  /** `sorted(declared) != sorted(permitted)`. Lists of strings always sort; another list either
  cannot be sorted or does not equal a list of strings. */
  function TermsVerdict(o: Oracle, declared: Option<Value>, permitted: seq<string>): Verdict {
    match declared
    case Some(List(items)) =>
      var terms := Strings(items);
      if terms.Some? then
        Unless(SortBy(terms.value, CodePoints) == SortBy(permitted, CodePoints),
               AuthorityTermsNotPermitted)
      else if o.sortable(items) then Objects(AuthorityTermsNotPermitted)
      else Raises
    case _ => Objects(AuthorityTermsNotPermitted)
  }

  function Authority(pkg: seq<Member>, name: string): Option<Value> {
    SubField(Get(pkg, "authority"), name)
  }

  /** The three lists are looked at in turn; the first that does not agree decides. */
  function AuthorityVerdict(o: Oracle, pkg: seq<Member>, g: Grant): Verdict {
    var allowed := TermsVerdict(o, Authority(pkg, "allowed"), g.authorityAllowed);
    if allowed != Fine then allowed
    else
      var requires_ := TermsVerdict(o, Authority(pkg, "requires_approval"), g.authorityRequiresApproval);
      if requires_ != Fine then requires_
      else TermsVerdict(o, Authority(pkg, "prohibited"), g.authorityProhibited)
  }

  predicate Within(v: Option<Value>, ceiling: int) {
    v.Some? && v.value.Int? && 1 <= v.value.i <= ceiling
  }

  function Budget(pkg: seq<Member>, name: string): Option<Value> {
    SubField(Authority(pkg, "budgets"), name)
  }

  function BudgetVerdict(pkg: seq<Member>, g: Grant): Verdict {
    Unless(Within(Budget(pkg, "max_attempts"), g.maxAttempts)
           && Within(Budget(pkg, "max_llm_calls"), g.maxLlmCalls), BudgetAboveCeiling)
  }

  /** `value not in a_frozenset_of_strings`, which hashes the value first. */
  function MemberVerdict(o: Oracle, v: Option<Value>, permitted: set<string>, why: Refusal): Verdict {
    match v
    case Some(List(_)) => Raises
    case Some(Map(_)) => Raises
    case Some(Foreign(tag)) => if o.unhashable(tag) then Raises else Objects(why)
    case Some(Str(s)) => Unless(s in permitted, why)
    case _ => Objects(why)
  }

  function CriterionVerdict(o: Oracle, v: Value, g: Grant): Verdict {
    if !v.Map? then Objects(AcceptanceNotPermitted)
    else
      var evidence := MemberVerdict(o, Get(v.members, "evidence_type"), g.acceptanceEvidenceTypes,
                                    AcceptanceNotPermitted);
      if evidence != Fine then evidence
      else MemberVerdict(o, Get(v.members, "approver"), g.acceptanceApprovers, AcceptanceNotPermitted)
  }

  function CriteriaVerdict(o: Oracle, items: seq<Value>, g: Grant): Verdict {
    if |items| == 0 then Fine
    else
      var first := CriterionVerdict(o, items[0], g);
      if first != Fine then first else CriteriaVerdict(o, items[1..], g)
  }

  function AcceptanceVerdict(o: Oracle, pkg: seq<Member>, g: Grant): Verdict {
    match Get(pkg, "acceptance")
    case Some(List(items)) =>
      if items == [] then Objects(AcceptanceNotPermitted) else CriteriaVerdict(o, items, g)
    case _ => Objects(AcceptanceNotPermitted)
  }

  function ImpactVerdict(o: Oracle, pkg: seq<Member>, g: Grant): Verdict {
    MemberVerdict(o, SubField(Get(pkg, "risk"), "max_impact"), g.maxImpact, MaxImpactNotPermitted)
  }

  // ----- refusals_for -----

  function Verdicts(o: Oracle, pkg: seq<Member>, g: Grant): seq<Verdict> {
    [TargetVerdict(o, pkg, g),
     StandingVerdict(pkg),
     BumpVerdict(pkg),
     ReachVerdict(pkg, g),
     AuthorityVerdict(o, pkg, g),
     BudgetVerdict(pkg, g),
     AcceptanceVerdict(o, pkg, g),
     ImpactVerdict(o, pkg, g)]
  }

  /** The objections in a tuple of verdicts; `None` when building the tuple raised. */
  function Objections(vs: seq<Verdict>): Option<seq<Refusal>> {
    if |vs| == 0 then Some([])
    else
      var rest := Objections(vs[1..]);
      match vs[0]
      case Raises => None
      case Fine => rest
      case Objects(why) => if rest.None? then None else Some([why] + rest.value)
  }

  /** `refusals_for`; `None` where it raises. */
  function RefusalsFor(o: Oracle, policy: Policy, pkg: seq<Member>): Option<seq<Refusal>> {
    match Get(pkg, "profile")
    case Some(Str(profile)) =>
      if profile == "" then Some([ProfileUndeclared])
      else if profile !in policy.grants then Some([ProfileUnrecognised])
      else
        (match policy.grants[profile]
         case None => Some([ProfileNotPolicyApprovable])
         case Some(g) => Objections(Verdicts(o, pkg, g)))
    case _ => Some([ProfileUndeclared])
  }

  // ----- the shape a revision must have -----

  /** Going down from a mapping by these names leads to `v`. */
  ghost predicate Leads(ms: seq<Member>, path: seq<string>, v: Value)
    decreases |path|
  {
    && |path| > 0 && Get(ms, path[0]).Some?
    && var at := Get(ms, path[0]).value;
       if |path| == 1 then at == v else at.Map? && Leads(at.members, path[1..], v)
  }

  function StrItems(ss: seq<string>): (r: seq<Value>)
    ensures |r| == |ss|
  {
    if |ss| == 0 then [] else [Str(ss[0])] + StrItems(ss[1..])
  }

  ghost predicate TargetConforms(o: Oracle, pkg: seq<Member>, g: Grant) {
    exists target ::
      && Leads(pkg, ["profile_fields", "target_repo"], Str(target))
      && if g.targetService.None? then target in g.targetRepositories
         else o.granted(g.targetService.value).Some?
              && o.casefold(target) in o.granted(g.targetService.value).value
  }

  ghost predicate StandingConforms(pkg: seq<Member>) {
    Leads(pkg, ["profile_fields", "standing"], Bool(true))
  }

  ghost predicate BumpConforms(pkg: seq<Member>) {
    exists before, after :: before != after
      && Leads(pkg, ["profile_fields", "from_version"], Str(before))
      && Leads(pkg, ["profile_fields", "to_version"], Str(after))
  }

  ghost predicate ReachConforms(pkg: seq<Member>, g: Grant) {
    exists option :: option in g.reachOptions && Leads(pkg, ["reach"], List(StrItems(option)))
  }

  /** The list holds the permitted terms, in any order, each as often as permitted. */
  ghost predicate TermsConform(pkg: seq<Member>, name: string, permitted: seq<string>) {
    exists terms: seq<string> ::
      Leads(pkg, ["authority", name], List(StrItems(terms))) && multiset(terms) == multiset(permitted)
  }

  ghost predicate AuthorityConforms(pkg: seq<Member>, g: Grant) {
    && TermsConform(pkg, "allowed", g.authorityAllowed)
    && TermsConform(pkg, "requires_approval", g.authorityRequiresApproval)
    && TermsConform(pkg, "prohibited", g.authorityProhibited)
  }

  /** The budget is declared, and is at least one and at most the ceiling. */
  ghost predicate BudgetConforms(pkg: seq<Member>, name: string, ceiling: int) {
    exists n :: Leads(pkg, ["authority", "budgets", name], Int(n)) && 1 <= n <= ceiling
  }

  ghost predicate CriterionConforms(c: Value, g: Grant) {
    exists ms, evidence, approver ::
      && c == Map(ms)
      && Leads(ms, ["evidence_type"], Str(evidence)) && evidence in g.acceptanceEvidenceTypes
      && Leads(ms, ["approver"], Str(approver)) && approver in g.acceptanceApprovers
  }

  ghost predicate AcceptanceConforms(pkg: seq<Member>, g: Grant) {
    exists items :: Leads(pkg, ["acceptance"], List(items)) && items != []
                    && forall i :: 0 <= i < |items| ==> CriterionConforms(items[i], g)
  }

  ghost predicate ImpactConforms(pkg: seq<Member>, g: Grant) {
    exists impact :: Leads(pkg, ["risk", "max_impact"], Str(impact)) && impact in g.maxImpact
  }

  ghost predicate ConformsTo(o: Oracle, pkg: seq<Member>, g: Grant) {
    && TargetConforms(o, pkg, g)
    && StandingConforms(pkg)
    && BumpConforms(pkg)
    && ReachConforms(pkg, g)
    && AuthorityConforms(pkg, g)
    && BudgetConforms(pkg, "max_attempts", g.maxAttempts)
    && BudgetConforms(pkg, "max_llm_calls", g.maxLlmCalls)
    && AcceptanceConforms(pkg, g)
    && ImpactConforms(pkg, g)
  }

  /** The policy describes this package's profile, and the package has the shape described. */
  ghost predicate PolicyConforms(o: Oracle, policy: Policy, pkg: seq<Member>) {
    exists profile :: profile != "" && Get(pkg, "profile") == Some(Str(profile))
                      && profile in policy.grants && policy.grants[profile].Some?
                      && ConformsTo(o, pkg, policy.grants[profile].value)
  }

  // ----- where the refusal functions look -----

  lemma LeadsOne(ms: seq<Member>, a: string, v: Value)
    ensures Leads(ms, [a], v) <==> Get(ms, a) == Some(v)
  {
  }

  lemma LeadsTwo(ms: seq<Member>, a: string, b: string, v: Value)
    ensures Leads(ms, [a, b], v) <==> SubField(Get(ms, a), b) == Some(v)
  {
    var at := Get(ms, a);
    assert [a, b][1..] == [b];
    if at.Some? && at.value.Map? { LeadsOne(at.value.members, b, v); }
  }

  lemma LeadsThree(ms: seq<Member>, a: string, b: string, c: string, v: Value)
    ensures Leads(ms, [a, b, c], v) <==> SubField(SubField(Get(ms, a), b), c) == Some(v)
  {
    var at := Get(ms, a);
    assert [a, b, c][1..] == [b, c];
    if at.Some? && at.value.Map? { LeadsTwo(at.value.members, b, c, v); }
  }

  lemma {:induction false} StringsOfItems(items: seq<Value>)
    ensures Strings(items).Some? ==> StrItems(Strings(items).value) == items
  {
    if |items| > 0 {
      StringsOfItems(items[1..]);
      assert items == [items[0]] + items[1..];
    }
  }

  lemma {:induction false} ItemsOfStrings(ss: seq<string>)
    ensures Strings(StrItems(ss)) == Some(ss)
  {
    if |ss| > 0 {
      ItemsOfStrings(ss[1..]);
      assert StrItems(ss)[1..] == StrItems(ss[1..]);
      assert ss == [ss[0]] + ss[1..];
    }
  }

  lemma TargetVerdictMeans(o: Oracle, pkg: seq<Member>, g: Grant)
    ensures TargetVerdict(o, pkg, g) == Fine <==> TargetConforms(o, pkg, g)
    ensures TargetVerdict(o, pkg, g) == Objects(MemberRecordUnreadable) <==>
              g.targetService.Some? && o.granted(g.targetService.value).None?
              && exists target :: Leads(pkg, ["profile_fields", "target_repo"], Str(target))
    ensures TargetVerdict(o, pkg, g) in
              {Fine, Objects(MemberRecordUnreadable), Objects(TargetRepositoryNotPermitted)}
  {
    hide Leads;
    forall target ensures Leads(pkg, ["profile_fields", "target_repo"], Str(target))
                          <==> ProfileField(pkg, "target_repo") == Some(Str(target)) {
      LeadsTwo(pkg, "profile_fields", "target_repo", Str(target));
    }
  }

  lemma StandingVerdictMeans(pkg: seq<Member>)
    ensures StandingVerdict(pkg) == if StandingConforms(pkg) then Fine else Objects(NotAStandingPackage)
  {
    LeadsTwo(pkg, "profile_fields", "standing", Bool(true));
  }

  lemma BumpVerdictMeans(pkg: seq<Member>)
    ensures BumpVerdict(pkg) == if BumpConforms(pkg) then Fine else Objects(BumpVersionsNotDistinct)
  {
    hide Leads;
    forall v: string
      ensures Leads(pkg, ["profile_fields", "from_version"], Str(v))
              <==> ProfileField(pkg, "from_version") == Some(Str(v))
      ensures Leads(pkg, ["profile_fields", "to_version"], Str(v))
              <==> ProfileField(pkg, "to_version") == Some(Str(v))
    {
      LeadsTwo(pkg, "profile_fields", "from_version", Str(v));
      LeadsTwo(pkg, "profile_fields", "to_version", Str(v));
    }
    var before, after := ProfileField(pkg, "from_version"), ProfileField(pkg, "to_version");
    if before.Some? && before.value.Str? && after.Some? && after.value.Str? {
      assert before == Some(Str(before.value.s)) && after == Some(Str(after.value.s));
    }
  }

  lemma ReachVerdictMeans(pkg: seq<Member>, g: Grant)
    ensures ReachVerdict(pkg, g) == if ReachConforms(pkg, g) then Fine else Objects(ReachNotPermitted)
  {
    hide Leads;
    var v := Get(pkg, "reach");
    forall option ensures Leads(pkg, ["reach"], List(StrItems(option)))
                          <==> v == Some(List(StrItems(option))) {
      LeadsOne(pkg, "reach", List(StrItems(option)));
    }
    if v.Some? && v.value.List? {
      StringsOfItems(v.value.items);
    }
    forall option | option in g.reachOptions && v == Some(List(StrItems(option)))
      ensures ReachVerdict(pkg, g) == Fine
    {
      ItemsOfStrings(option);
    }
  }

  lemma TermsVerdictMeans(o: Oracle, pkg: seq<Member>, name: string, permitted: seq<string>)
    ensures TermsVerdict(o, Authority(pkg, name), permitted) == Fine
            <==> TermsConform(pkg, name, permitted)
  {
    hide SortBy, Leads;
    var declared := Authority(pkg, name);
    forall terms ensures Leads(pkg, ["authority", name], List(StrItems(terms)))
                         <==> declared == Some(List(StrItems(terms))) {
      LeadsTwo(pkg, "authority", name, List(StrItems(terms)));
    }
    if declared.Some? && declared.value.List? && Strings(declared.value.items).Some? {
      StringsOfItems(declared.value.items);
      SortDecidesPermutation(Strings(declared.value.items).value, permitted);
    }
    forall terms: seq<string> |
      declared == Some(List(StrItems(terms))) && multiset(terms) == multiset(permitted)
      ensures TermsVerdict(o, declared, permitted) == Fine
    {
      ItemsOfStrings(terms);
      SortDecidesPermutation(terms, permitted);
    }
  }

  /** A list that is not of strings is compared only where Python can sort it. */
  lemma TermsRaise(o: Oracle, declared: Option<Value>, permitted: seq<string>)
    ensures TermsVerdict(o, declared, permitted).Raises? <==>
              exists items :: declared == Some(List(items)) && !o.sortable(items)
                              && !exists terms: seq<string> :: items == StrItems(terms)
    ensures TermsVerdict(o, declared, permitted).Objects? ==>
              TermsVerdict(o, declared, permitted) == Objects(AuthorityTermsNotPermitted)
  {
    hide SortBy;
    if declared.Some? && declared.value.List? {
      var items := declared.value.items;
      StringsOfItems(items);
      forall terms: seq<string> | items == StrItems(terms) ensures Strings(items).Some? {
        ItemsOfStrings(terms);
      }
    }
  }

  lemma AuthorityVerdictMeans(o: Oracle, pkg: seq<Member>, g: Grant)
    ensures AuthorityVerdict(o, pkg, g) == Fine <==> AuthorityConforms(pkg, g)
    ensures AuthorityVerdict(o, pkg, g).Objects? ==>
              AuthorityVerdict(o, pkg, g) == Objects(AuthorityTermsNotPermitted)
  {
    hide TermsVerdict, TermsConform;
    TermsVerdictMeans(o, pkg, "allowed", g.authorityAllowed);
    TermsVerdictMeans(o, pkg, "requires_approval", g.authorityRequiresApproval);
    TermsVerdictMeans(o, pkg, "prohibited", g.authorityProhibited);
    TermsRaise(o, Authority(pkg, "allowed"), g.authorityAllowed);
    TermsRaise(o, Authority(pkg, "requires_approval"), g.authorityRequiresApproval);
    TermsRaise(o, Authority(pkg, "prohibited"), g.authorityProhibited);
  }

  lemma WithinMeans(pkg: seq<Member>, name: string, ceiling: int)
    ensures Within(Budget(pkg, name), ceiling) <==> BudgetConforms(pkg, name, ceiling)
  {
    hide Leads;
    var v := Budget(pkg, name);
    forall n ensures Leads(pkg, ["authority", "budgets", name], Int(n)) <==> v == Some(Int(n)) {
      LeadsThree(pkg, "authority", "budgets", name, Int(n));
    }
    if v.Some? && v.value.Int? { assert v == Some(Int(v.value.i)); }
  }

  lemma BudgetVerdictMeans(pkg: seq<Member>, g: Grant)
    ensures BudgetVerdict(pkg, g)
            == if BudgetConforms(pkg, "max_attempts", g.maxAttempts)
                  && BudgetConforms(pkg, "max_llm_calls", g.maxLlmCalls)
               then Fine else Objects(BudgetAboveCeiling)
  {
    hide BudgetConforms, Within, Budget;
    WithinMeans(pkg, "max_attempts", g.maxAttempts);
    WithinMeans(pkg, "max_llm_calls", g.maxLlmCalls);
  }

  /** What looking a value up in a set of strings comes to: values Python cannot hash raise. */
  lemma MemberVerdictMeans(o: Oracle, v: Option<Value>, permitted: set<string>, why: Refusal)
    ensures MemberVerdict(o, v, permitted, why) == Fine <==> exists s :: v == Some(Str(s)) && s in permitted
    ensures MemberVerdict(o, v, permitted, why).Raises? <==>
              || (exists items :: v == Some(List(items)))
              || (exists ms :: v == Some(Map(ms)))
              || (exists tag :: v == Some(Foreign(tag)) && o.unhashable(tag))
    ensures MemberVerdict(o, v, permitted, why).Objects? ==>
              MemberVerdict(o, v, permitted, why) == Objects(why)
  {
  }

  lemma CriterionVerdictMeans(o: Oracle, v: Value, g: Grant)
    ensures CriterionVerdict(o, v, g) == Fine <==> CriterionConforms(v, g)
    ensures CriterionVerdict(o, v, g).Objects? ==>
              CriterionVerdict(o, v, g) == Objects(AcceptanceNotPermitted)
  {
    hide Leads, MemberVerdict;
    if v.Map? {
      forall s
        ensures Leads(v.members, ["evidence_type"], Str(s)) <==> Get(v.members, "evidence_type") == Some(Str(s))
        ensures Leads(v.members, ["approver"], Str(s)) <==> Get(v.members, "approver") == Some(Str(s))
      {
        LeadsOne(v.members, "evidence_type", Str(s));
        LeadsOne(v.members, "approver", Str(s));
      }
      MemberVerdictMeans(o, Get(v.members, "evidence_type"), g.acceptanceEvidenceTypes,
                         AcceptanceNotPermitted);
      MemberVerdictMeans(o, Get(v.members, "approver"), g.acceptanceApprovers, AcceptanceNotPermitted);
    }
  }

  lemma {:induction false} CriteriaVerdictMeans(o: Oracle, items: seq<Value>, g: Grant)
    ensures CriteriaVerdict(o, items, g) == Fine <==>
              forall i :: 0 <= i < |items| ==> CriterionConforms(items[i], g)
    ensures CriteriaVerdict(o, items, g).Objects? ==>
              CriteriaVerdict(o, items, g) == Objects(AcceptanceNotPermitted)
  {
    hide CriterionVerdict, CriterionConforms;
    if |items| > 0 {
      CriterionVerdictMeans(o, items[0], g);
      CriteriaVerdictMeans(o, items[1..], g);
      assert forall i :: 0 < i < |items| ==> items[i] == items[1..][i - 1];
    }
  }

  lemma AcceptanceVerdictMeans(o: Oracle, pkg: seq<Member>, g: Grant)
    ensures AcceptanceVerdict(o, pkg, g) == Fine <==> AcceptanceConforms(pkg, g)
    ensures AcceptanceVerdict(o, pkg, g).Objects? ==>
              AcceptanceVerdict(o, pkg, g) == Objects(AcceptanceNotPermitted)
  {
    hide CriteriaVerdict, CriterionConforms, Leads;
    var v := Get(pkg, "acceptance");
    forall items ensures Leads(pkg, ["acceptance"], List(items)) <==> v == Some(List(items)) {
      LeadsOne(pkg, "acceptance", List(items));
    }
    if v.Some? && v.value.List? {
      CriteriaVerdictMeans(o, v.value.items, g);
    }
  }

  lemma ImpactVerdictMeans(o: Oracle, pkg: seq<Member>, g: Grant)
    ensures ImpactVerdict(o, pkg, g) == Fine <==> ImpactConforms(pkg, g)
    ensures ImpactVerdict(o, pkg, g).Objects? ==> ImpactVerdict(o, pkg, g) == Objects(MaxImpactNotPermitted)
  {
    hide Leads, MemberVerdict;
    forall s ensures Leads(pkg, ["risk", "max_impact"], Str(s))
                     <==> SubField(Get(pkg, "risk"), "max_impact") == Some(Str(s)) {
      LeadsTwo(pkg, "risk", "max_impact", Str(s));
    }
    MemberVerdictMeans(o, SubField(Get(pkg, "risk"), "max_impact"), g.maxImpact, MaxImpactNotPermitted);
  }

  lemma {:induction false} ObjectionsNone(vs: seq<Verdict>)
    ensures Objections(vs) == Some([]) <==> forall i :: 0 <= i < |vs| ==> vs[i] == Fine
  {
    if |vs| > 0 {
      ObjectionsNone(vs[1..]);
      assert forall i :: 0 < i < |vs| ==> vs[i] == vs[1..][i - 1];
    }
  }

  /** The eight verdicts, in their order, and the reasons each can give. */
  lemma VerdictsMean(o: Oracle, pkg: seq<Member>, g: Grant)
    ensures var vs := Verdicts(o, pkg, g);
            && |vs| == 8
            && (vs[0] == Fine <==> TargetConforms(o, pkg, g))
            && vs[0] in {Fine, Objects(MemberRecordUnreadable), Objects(TargetRepositoryNotPermitted)}
            && vs[1] == (if StandingConforms(pkg) then Fine else Objects(NotAStandingPackage))
            && vs[2] == (if BumpConforms(pkg) then Fine else Objects(BumpVersionsNotDistinct))
            && vs[3] == (if ReachConforms(pkg, g) then Fine else Objects(ReachNotPermitted))
            && (vs[4] == Fine <==> AuthorityConforms(pkg, g))
            && vs[4] in {Fine, Raises, Objects(AuthorityTermsNotPermitted)}
            && vs[5] == (if BudgetConforms(pkg, "max_attempts", g.maxAttempts)
                            && BudgetConforms(pkg, "max_llm_calls", g.maxLlmCalls)
                         then Fine else Objects(BudgetAboveCeiling))
            && (vs[6] == Fine <==> AcceptanceConforms(pkg, g))
            && vs[6] in {Fine, Raises, Objects(AcceptanceNotPermitted)}
            && (vs[7] == Fine <==> ImpactConforms(pkg, g))
            && vs[7] in {Fine, Raises, Objects(MaxImpactNotPermitted)}
  {
    hide TargetVerdict, TargetConforms, StandingVerdict, StandingConforms, BumpVerdict, BumpConforms,
         ReachVerdict, ReachConforms, AuthorityVerdict, AuthorityConforms, BudgetVerdict, BudgetConforms,
         AcceptanceVerdict, AcceptanceConforms, ImpactVerdict, ImpactConforms;
    TargetVerdictMeans(o, pkg, g);
    StandingVerdictMeans(pkg);
    BumpVerdictMeans(pkg);
    ReachVerdictMeans(pkg, g);
    AuthorityVerdictMeans(o, pkg, g);
    BudgetVerdictMeans(pkg, g);
    AcceptanceVerdictMeans(o, pkg, g);
    ImpactVerdictMeans(o, pkg, g);
  }

  lemma AllEight(vs: seq<Verdict>)
    requires |vs| == 8
    ensures (forall i :: 0 <= i < |vs| ==> vs[i] == Fine) <==>
              vs[0] == Fine && vs[1] == Fine && vs[2] == Fine && vs[3] == Fine && vs[4] == Fine
              && vs[5] == Fine && vs[6] == Fine && vs[7] == Fine
  {
  }

  lemma NoVerdictMeansConforms(o: Oracle, pkg: seq<Member>, g: Grant)
    ensures Objections(Verdicts(o, pkg, g)) == Some([]) <==> ConformsTo(o, pkg, g)
  {
    hide Verdicts, TargetConforms, StandingConforms, BumpConforms, ReachConforms, AuthorityConforms,
         BudgetConforms, AcceptanceConforms, ImpactConforms, Objections;
    ObjectionsNone(Verdicts(o, pkg, g));
    VerdictsMean(o, pkg, g);
    AllEight(Verdicts(o, pkg, g));
  }

  /** The policy has no objection exactly to the packages of the shape it describes. */
  lemma NoRefusalIffConforms(o: Oracle, policy: Policy, pkg: seq<Member>)
    ensures RefusalsFor(o, policy, pkg) == Some([]) <==> PolicyConforms(o, policy, pkg)
  {
    hide Objections, Verdicts, ConformsTo;
    var p := Get(pkg, "profile");
    if p.Some? && p.value.Str? && p.value.s in policy.grants && policy.grants[p.value.s].Some? {
      NoVerdictMeansConforms(o, pkg, policy.grants[p.value.s].value);
    }
  }

  /** Before any grant is looked at: what is said of a package whose profile has none. */
  lemma ProfileRefusals(o: Oracle, policy: Policy, pkg: seq<Member>)
    ensures (forall profile :: Get(pkg, "profile") == Some(Str(profile)) ==> profile == "") ==>
              RefusalsFor(o, policy, pkg) == Some([ProfileUndeclared])
    ensures forall profile :: Get(pkg, "profile") == Some(Str(profile)) && profile != "" ==>
              && (profile !in policy.grants ==>
                    RefusalsFor(o, policy, pkg) == Some([ProfileUnrecognised]))
              && (profile in policy.grants && policy.grants[profile].None? ==>
                    RefusalsFor(o, policy, pkg) == Some([ProfileNotPolicyApprovable]))
  {
    var p := Get(pkg, "profile");
    if p.Some? && p.value.Str? { assert p == Some(Str(p.value.s)); }
  }

  /** Under a grant the refusals name exactly the conditions the package fails. */
  lemma RefusalsName(o: Oracle, pkg: seq<Member>, g: Grant)
    requires Objections(Verdicts(o, pkg, g)).Some?
    ensures var rs := Objections(Verdicts(o, pkg, g)).value;
            && (TargetRepositoryNotPermitted in rs || MemberRecordUnreadable in rs
                <==> !TargetConforms(o, pkg, g))
            && (NotAStandingPackage in rs <==> !StandingConforms(pkg))
            && (BumpVersionsNotDistinct in rs <==> !BumpConforms(pkg))
            && (ReachNotPermitted in rs <==> !ReachConforms(pkg, g))
            && (AuthorityTermsNotPermitted in rs <==> !AuthorityConforms(pkg, g))
            && (BudgetAboveCeiling in rs <==>
                  !(BudgetConforms(pkg, "max_attempts", g.maxAttempts)
                    && BudgetConforms(pkg, "max_llm_calls", g.maxLlmCalls)))
            && (AcceptanceNotPermitted in rs <==> !AcceptanceConforms(pkg, g))
            && (MaxImpactNotPermitted in rs <==> !ImpactConforms(pkg, g))
  {
    hide Verdicts, TargetConforms, StandingConforms, BumpConforms, ReachConforms, AuthorityConforms,
         BudgetConforms, AcceptanceConforms, ImpactConforms, Objections;
    var vs := Verdicts(o, pkg, g);
    VerdictsMean(o, pkg, g);
    forall why ensures why in Objections(vs).value <==> Objects(why) in vs {
      ObjectionsAre(vs, why);
    }
    ObjectionsAre(vs, ReachNotPermitted);
    assert vs[4] != Raises && vs[6] != Raises && vs[7] != Raises;
    InEight(vs);
  }

  lemma InEight(vs: seq<Verdict>)
    requires |vs| == 8
    ensures forall v :: v in vs <==>
              v == vs[0] || v == vs[1] || v == vs[2] || v == vs[3] || v == vs[4] || v == vs[5]
              || v == vs[6] || v == vs[7]
  {
  }

  // ----- narrowing -----

  /** Every bound of `n` is at least as tight as that of `w`. The authority lists are exact, so a
  narrower grant has the same ones up to order. */
  ghost predicate Narrower(n: Grant, w: Grant) {
    && n.targetService == w.targetService
    && n.targetRepositories <= w.targetRepositories
    && (forall option :: option in n.reachOptions ==> option in w.reachOptions)
    && multiset(n.authorityAllowed) == multiset(w.authorityAllowed)
    && multiset(n.authorityRequiresApproval) == multiset(w.authorityRequiresApproval)
    && multiset(n.authorityProhibited) == multiset(w.authorityProhibited)
    && n.maxAttempts <= w.maxAttempts
    && n.maxLlmCalls <= w.maxLlmCalls
    && n.acceptanceEvidenceTypes <= w.acceptanceEvidenceTypes
    && n.acceptanceApprovers <= w.acceptanceApprovers
    && n.maxImpact <= w.maxImpact
  }

  lemma SameTerms(o: Oracle, declared: Option<Value>, a: seq<string>, b: seq<string>)
    requires multiset(a) == multiset(b)
    ensures TermsVerdict(o, declared, a) == TermsVerdict(o, declared, b)
  {
    SortDecidesPermutation(a, b);
  }

  lemma {:induction false} NarrowerCriteria(o: Oracle, items: seq<Value>, n: Grant, w: Grant)
    requires Narrower(n, w)
    ensures CriteriaVerdict(o, items, w) != Fine && !CriteriaVerdict(o, items, n).Raises? ==>
              CriteriaVerdict(o, items, n) == Objects(AcceptanceNotPermitted)
  {
    if |items| > 0 { NarrowerCriteria(o, items[1..], n, w); }
  }

  /** The objections are the verdicts that object. */
  lemma {:induction false} ObjectionsAre(vs: seq<Verdict>, why: Refusal)
    requires Objections(vs).Some?
    ensures why in Objections(vs).value <==> Objects(why) in vs
    ensures forall i :: 0 <= i < |vs| ==> vs[i] != Raises
  {
    if |vs| > 0 {
      assert vs == [vs[0]] + vs[1..];
      ObjectionsAre(vs[1..], why);
    }
  }

  lemma NarrowerAuthority(o: Oracle, pkg: seq<Member>, n: Grant, w: Grant)
    requires Narrower(n, w)
    ensures AuthorityVerdict(o, pkg, n) == AuthorityVerdict(o, pkg, w)
  {
    hide TermsVerdict;
    SameTerms(o, Authority(pkg, "allowed"), n.authorityAllowed, w.authorityAllowed);
    SameTerms(o, Authority(pkg, "requires_approval"), n.authorityRequiresApproval,
              w.authorityRequiresApproval);
    SameTerms(o, Authority(pkg, "prohibited"), n.authorityProhibited, w.authorityProhibited);
  }

  lemma NarrowerAcceptance(o: Oracle, pkg: seq<Member>, n: Grant, w: Grant)
    requires Narrower(n, w)
    ensures !AcceptanceVerdict(o, pkg, n).Raises? && AcceptanceVerdict(o, pkg, w).Objects? ==>
              AcceptanceVerdict(o, pkg, n) == AcceptanceVerdict(o, pkg, w)
  {
    hide CriterionVerdict;
    var v := Get(pkg, "acceptance");
    if v.Some? && v.value.List? {
      NarrowerCriteria(o, v.value.items, n, w);
      CriteriaObject(o, v.value.items, w);
    }
  }

  lemma NarrowerTarget(o: Oracle, pkg: seq<Member>, n: Grant, w: Grant)
    requires Narrower(n, w)
    ensures TargetVerdict(o, pkg, w).Objects? ==> TargetVerdict(o, pkg, n) == TargetVerdict(o, pkg, w)
  {
  }

  lemma NarrowerBounds(o: Oracle, pkg: seq<Member>, n: Grant, w: Grant)
    requires Narrower(n, w)
    ensures ReachVerdict(pkg, w).Objects? ==> ReachVerdict(pkg, n) == ReachVerdict(pkg, w)
    ensures BudgetVerdict(pkg, w).Objects? ==> BudgetVerdict(pkg, n) == BudgetVerdict(pkg, w)
    ensures !ImpactVerdict(o, pkg, n).Raises? && ImpactVerdict(o, pkg, w).Objects? ==>
              ImpactVerdict(o, pkg, n) == ImpactVerdict(o, pkg, w)
  {
    hide ProfileField, Budget, Strings;
  }

  lemma NarrowerVerdicts(o: Oracle, pkg: seq<Member>, n: Grant, w: Grant, i: nat)
    requires Narrower(n, w) && i < 8
    requires !Verdicts(o, pkg, n)[i].Raises? && Verdicts(o, pkg, w)[i].Objects?
    ensures Verdicts(o, pkg, n)[i] == Verdicts(o, pkg, w)[i]
  {
    hide TargetVerdict, StandingVerdict, BumpVerdict, ReachVerdict, AuthorityVerdict, BudgetVerdict,
         AcceptanceVerdict, ImpactVerdict, Narrower;
    NarrowerTarget(o, pkg, n, w);
    NarrowerBounds(o, pkg, n, w);
    NarrowerAuthority(o, pkg, n, w);
    NarrowerAcceptance(o, pkg, n, w);
  }

  lemma {:induction false} CriteriaObject(o: Oracle, items: seq<Value>, g: Grant)
    ensures CriteriaVerdict(o, items, g).Objects? ==>
              CriteriaVerdict(o, items, g) == Objects(AcceptanceNotPermitted)
  {
    if |items| > 0 { CriteriaObject(o, items[1..], g); }
  }

  lemma {:induction false} NarrowerRaisesCriteria(o: Oracle, items: seq<Value>, n: Grant, w: Grant)
    requires Narrower(n, w) && CriteriaVerdict(o, items, n).Raises?
    ensures CriteriaVerdict(o, items, w).Raises?
  {
    if |items| > 0 && CriterionVerdict(o, items[0], n) == Fine {
      NarrowerRaisesCriteria(o, items[1..], n, w);
    }
  }

  /** What raises under a grant raises under a wider one. */
  lemma NarrowerRaises(o: Oracle, pkg: seq<Member>, n: Grant, w: Grant)
    requires Narrower(n, w)
    ensures !TargetVerdict(o, pkg, n).Raises? && !StandingVerdict(pkg).Raises?
    ensures !BumpVerdict(pkg).Raises? && !ReachVerdict(pkg, n).Raises? && !BudgetVerdict(pkg, n).Raises?
    ensures AcceptanceVerdict(o, pkg, n).Raises? ==> AcceptanceVerdict(o, pkg, w).Raises?
    ensures ImpactVerdict(o, pkg, n).Raises? ==> ImpactVerdict(o, pkg, w).Raises?
  {
    hide CriterionVerdict, Narrower, ProfileField, Budget, Strings;
    var v := Get(pkg, "acceptance");
    if v.Some? && v.value.List? && CriteriaVerdict(o, v.value.items, n).Raises? {
      NarrowerRaisesCriteria(o, v.value.items, n, w);
    }
  }

  lemma {:induction false} NoneRaises(vs: seq<Verdict>)
    requires forall i :: 0 <= i < |vs| ==> !vs[i].Raises?
    ensures Objections(vs).Some?
  {
    if |vs| > 0 {
      assert forall i :: 0 < i < |vs| ==> vs[i] == vs[1..][i - 1];
      NoneRaises(vs[1..]);
    }
  }

  lemma NarrowerDefined(o: Oracle, pkg: seq<Member>, n: Grant, w: Grant)
    requires Narrower(n, w) && Objections(Verdicts(o, pkg, w)).Some?
    ensures Objections(Verdicts(o, pkg, n)).Some?
  {
    hide TargetVerdict, StandingVerdict, BumpVerdict, ReachVerdict, AuthorityVerdict, BudgetVerdict,
         AcceptanceVerdict, ImpactVerdict, Narrower, Objections;
    var vn, vw := Verdicts(o, pkg, n), Verdicts(o, pkg, w);
    ObjectionsAre(vw, ProfileUndeclared);
    NarrowerRaises(o, pkg, n, w);
    NarrowerAuthority(o, pkg, n, w);
    assert vw[4] != Raises && vw[6] != Raises && vw[7] != Raises;
    NoneRaises(vn);
  }

  /** Narrowing a grant never removes an objection, and never turns one into an exception. */
  lemma NarrowingKeepsObjections(o: Oracle, pkg: seq<Member>, n: Grant, w: Grant, why: Refusal)
    requires Narrower(n, w)
    requires Objections(Verdicts(o, pkg, w)).Some?
    requires why in Objections(Verdicts(o, pkg, w)).value
    ensures Objections(Verdicts(o, pkg, n)).Some? && why in Objections(Verdicts(o, pkg, n)).value
  {
    hide Objections, Verdicts;
    NarrowerDefined(o, pkg, n, w);
    var vn, vw := Verdicts(o, pkg, n), Verdicts(o, pkg, w);
    ObjectionsAre(vw, why);
    ObjectionsAre(vn, why);
    EightVerdicts(o, pkg, n);
    EightVerdicts(o, pkg, w);
    var i :| 0 <= i < |vw| && vw[i] == Objects(why);
    NarrowerVerdicts(o, pkg, n, w, i);
    assert vn[i] in vn;
  }

  lemma EightVerdicts(o: Oracle, pkg: seq<Member>, g: Grant)
    ensures |Verdicts(o, pkg, g)| == 8
  {
  }
}
