/** `profiles/dependency_update.py`: the command envelope of a dependency bump, and the two guards
`factory/decompose.py` puts on running part of it before any work is done. */
module Envelope {
  import opened Values
  import opened Sequences

  datatype PinSite = PinSite(file: string, section: string)

  datatype Tooling = Npm | Pip | Uv | UnknownTooling(name: string)

  /** What the builders ask of the target checkout. */
  datatype Checkout = Checkout(
    buildScript: bool,
    testScript: bool,
    lockfile: bool,
    eslintConfig: bool,
    prettierConfig: bool)

  // ----- names that are safe to interpolate -----

  predicate Lower(c: char) { 'a' <= c <= 'z' || '0' <= c <= '9' }

  predicate Alnum(c: char) { Lower(c) || 'A' <= c <= 'Z' }

  predicate LowerWord(s: string) {
    |s| > 0 && Lower(s[0]) && forall i :: 0 < i < |s| ==> Lower(s[i]) || s[i] in "._-"
  }

  predicate PlainWord(s: string) {
    |s| > 0 && Alnum(s[0]) && forall i :: 0 < i < |s| ==> Alnum(s[i]) || s[i] in "._-"
  }

  predicate ScopedName(s: string) {
    exists k :: 1 < k < |s| && s[0] == '@' && s[k] == '/' && LowerWord(s[1..k]) && LowerWord(s[k + 1..])
  }

  predicate NoDotDot(s: string) {
    forall i :: 0 <= i < |s| - 1 ==> !(s[i] == '.' && s[i + 1] == '.')
  }

  predicate PlainPackage(s: string) {
    NoDotDot(s) && (PlainWord(s) || ScopedName(s))
  }

  predicate PlainVersion(s: string) {
    |s| > 0 && Alnum(s[0]) && forall i :: 0 < i < |s| ==> Alnum(s[i]) || s[i] in ".+!_-"
  }

  // ----- pip -----

  function PipEdit(package: string, old_: string, new_: string, site: PinSite): string {
    "sed -i 's/^" + package + "==" + old_ + "$/" + package + "==" + new_ + "/' " + site.file
  }

  function PipMutation(package: string, old_: string, new_: string, sites: seq<PinSite>): seq<string> {
    seq(|sites|, i requires 0 <= i < |sites| => PipEdit(package, old_, new_, sites[i]))
  }

  function PipVerifier(package: string, new_: string, sites: seq<PinSite>): seq<string> {
    var primary :=
      if exists i :: 0 <= i < |sites| && sites[i].file == "requirements.txt" then "requirements.txt"
      else if sites != [] then sites[0].file
      else "requirements.txt";
    ["grep -qx '" + package + "==" + new_ + "' " + primary]
  }

  // ----- uv -----

  const GROUPS := "dependency-groups."
  const EXTRAS := "optional-dependencies."

  /** `_uv_section_flag`; `None` where it raises `ProfileError`. */
  function UvSectionFlag(section: string): Option<string> {
    if section == "project.dependencies" then Some("")
    else if StartsWith(section, GROUPS) then
      var group := section[|GROUPS|..];
      Some(if group == "dev" then "--dev" else "--group " + group)
    else if StartsWith(section, EXTRAS) then Some("--optional " + section[|EXTRAS|..])
    else None
  }

  /** `" ".join(["uv", "add", ...])`: what follows the two first words depends on the section. */
  function UvAdd(package: string, new_: string, section: string, frozen: bool): Option<string> {
    var flag := UvSectionFlag(section);
    if flag.None? then None
    else Some("uv add " + ((if frozen then "--frozen " else "")
                           + ((if flag.value == "" then "" else flag.value + " ")
                              + ("'" + package + ">=" + new_ + "'"))))
  }

  function UvAdds(package: string, new_: string, sites: seq<PinSite>, frozen: bool)
    : Option<seq<string>>
  {
    if sites == [] then Some([])
    else
      var first, rest := UvAdd(package, new_, sites[0].section, frozen),
                         UvAdds(package, new_, sites[1..], frozen);
      if first.None? || rest.None? then None else Some([first.value] + rest.value)
  }

  function UvMutation(package: string, new_: string, sites: seq<PinSite>): Option<seq<string>> {
    if |sites| <= 1 then UvAdds(package, new_, sites, false)
    else
      var adds := UvAdds(package, new_, sites, true);
      if adds.None? then None else Some(adds.value + ["uv lock"])
  }

  // ----- npm -----

  function NpmInstall(package: string, new_: string, sites: seq<PinSite>): string {
    var dev := sites != [] && forall i :: 0 <= i < |sites| ==> sites[i].section == "devDependencies";
    "npm install " + (package + "@" + new_ + " --save-exact" + if dev then " --save-dev" else "")
  }

  function Build(repo: Checkout): seq<string> {
    if repo.buildScript then ["npm run build"] else []
  }

  function GateComponents(repo: Checkout): seq<string> {
    (if repo.eslintConfig then ["npx eslint ."] else [])
    + (if repo.prettierConfig then ["npx prettier --check ."] else [])
    + (if repo.testScript then ["npm test"] else [])
  }

  function NpmGrep(package: string, new_: string): string {
    "grep -q '" + ("\"" + package + "\": \"" + new_ + "\"' package.json")
  }

  function NpmMutation(repo: Checkout, package: string, new_: string, sites: seq<PinSite>): seq<string> {
    [NpmInstall(package, new_, sites)] + Build(repo)
  }

  function NpmVerifier(repo: Checkout, package: string, new_: string): seq<string> {
    (if repo.lockfile then ["npm ci"] else []) + GateComponents(repo) + [NpmGrep(package, new_)]
  }

  /** `_npm_gate_components`. */
  method NpmGateComponents(repo: Checkout) returns (components: seq<string>)
    ensures components == GateComponents(repo)
  {
    components := [];
    if repo.eslintConfig { components := components + ["npx eslint ."]; }
    if repo.prettierConfig { components := components + ["npx prettier --check ."]; }
    if repo.testScript { components := components + ["npm test"]; }
  }

  // ----- the envelope -----

  datatype Constraints = Constraints(
    allowed: seq<string>,
    mutation: seq<string>,
    verify: Option<seq<string>>)

  datatype Refusal = UnknownToolingName | UnsafeField | UnknownSection | NoMutations

  datatype Built = Refused(why: Refusal) | Envelope(constraints: Constraints)

  function Mutations(
      t: Tooling, repo: Checkout, package: string, old_: string, new_: string, sites: seq<PinSite>)
    : Option<seq<string>>
  {
    match t
    case Npm => Some(NpmMutation(repo, package, new_, sites))
    case Pip => Some(PipMutation(package, old_, new_, sites))
    case Uv => UvMutation(package, new_, sites)
    case UnknownTooling(_) => None
  }

  function Verifiers(t: Tooling, repo: Checkout, package: string, new_: string, sites: seq<PinSite>)
    : seq<string>
  {
    match t
    case Npm => NpmVerifier(repo, package, new_)
    case Pip => PipVerifier(package, new_, sites)
    case Uv => ["uv lock --check"]
    case UnknownTooling(_) => []
  }

  /** `build_envelope`. */
  function BuildEnvelope(
      t: Tooling, repo: Checkout, package: string, old_: string, new_: string, sites: seq<PinSite>)
    : Built
  {
    if t.UnknownTooling? then Refused(UnknownToolingName)
    else if !PlainPackage(package) || !PlainVersion(old_) || !PlainVersion(new_) then
      Refused(UnsafeField)
    else
      var mutations := Mutations(t, repo, package, old_, new_, sites);
      if mutations.None? then Refused(UnknownSection)
      else if mutations.value == [] then Refused(NoMutations)
      else
        var verifiers := Verifiers(t, repo, package, new_, sites);
        Envelope(Constraints(mutations.value + verifiers, mutations.value,
                             if verifiers != [] then Some(verifiers) else None))
  }

  /** `commands_deferred_to_coding`. */
  function Deferred(t: Tooling, repo: Checkout): seq<string> {
    if !t.Npm? then [] else Build(repo) + GateComponents(repo)
  }

  method CommandsDeferredToCoding(t: Tooling, repo: Checkout) returns (deferred: seq<string>)
    ensures deferred == Deferred(t, repo)
  {
    if !t.Npm? { return []; }
    deferred := [];
    if repo.buildScript { deferred := deferred + ["npm run build"]; }
    var components := NpmGateComponents(repo);
    deferred := deferred + components;
  }

  // ----- mutators and verifiers are told apart -----

  function Only(commands: seq<string>, keep: seq<string>): seq<string> {
    if commands == [] then []
    else (if commands[0] in keep then [commands[0]] else []) + Only(commands[1..], keep)
  }

  function Excluding(commands: seq<string>, drop: seq<string>): seq<string> {
    if commands == [] then []
    else (if commands[0] in drop then [] else [commands[0]]) + Excluding(commands[1..], drop)
  }

  ghost predicate Disjoint(a: seq<string>, b: seq<string>) {
    forall c :: c in a ==> c !in b
  }

  lemma {:induction false} UvAddsShape(package: string, new_: string, sites: seq<PinSite>, frozen: bool)
    requires UvAdds(package, new_, sites, frozen).Some?
    ensures forall c :: c in UvAdds(package, new_, sites, frozen).value ==> |c| > 3 && c[3] == 'a'
  {
    if sites != [] {
      UvAddsShape(package, new_, sites[1..], frozen);
      assert UvAdd(package, new_, sites[0].section, frozen).value[3] == 'a';
    }
  }

  lemma PipDisjoint(package: string, old_: string, new_: string, sites: seq<PinSite>)
    ensures Disjoint(PipMutation(package, old_, new_, sites), PipVerifier(package, new_, sites))
  {
    forall c | c in PipMutation(package, old_, new_, sites)
      ensures c !in PipVerifier(package, new_, sites)
    {
      assert c[0] == 's';
      assert PipVerifier(package, new_, sites)[0][0] == 'g';
    }
  }

  /** The fifth character tells the npm commands apart. */
  lemma NpmFifths(package: string, new_: string, sites: seq<PinSite>)
    ensures |NpmInstall(package, new_, sites)| > 4 && NpmInstall(package, new_, sites)[4] == 'i'
    ensures |NpmGrep(package, new_)| > 4 && NpmGrep(package, new_)[4] == ' '
  {
    var install, grep := "npm install ", "grep -q '";
    assert install[4] == 'i' && grep[4] == ' ';
  }

  lemma GateFifths(repo: Checkout)
    ensures forall c :: c in GateComponents(repo) ==> |c| > 4 && c[4] in "ept"
  {
    var e, p, t := "npx eslint .", "npx prettier --check .", "npm test";
    assert |e| > 4 && |p| > 4 && |t| > 4 && e[4] == 'e' && p[4] == 'p' && t[4] == 't';
    forall c | c in GateComponents(repo) ensures |c| > 4 && c[4] in "ept" {
      assert c == e || c == p || c == t;
    }
  }

  lemma MutationFifths(repo: Checkout, package: string, new_: string, sites: seq<PinSite>)
    ensures forall c :: c in NpmMutation(repo, package, new_, sites) ==> |c| > 4 && c[4] in "ir"
  {
    hide NpmInstall;
    NpmFifths(package, new_, sites);
    var build := "npm run build";
    assert |build| > 4 && build[4] == 'r';
    forall c | c in NpmMutation(repo, package, new_, sites) ensures |c| > 4 && c[4] in "ir" {
      assert c == NpmInstall(package, new_, sites) || c == build;
    }
  }

  lemma VerifierFifths(repo: Checkout, package: string, new_: string)
    ensures forall c :: c in NpmVerifier(repo, package, new_) ==> |c| > 4 && c[4] in "cept "
  {
    hide NpmGrep, GateComponents;
    NpmFifths(package, new_, []);
    GateFifths(repo);
    var ci := "npm ci";
    assert |ci| > 4 && ci[4] == 'c';
    forall c | c in NpmVerifier(repo, package, new_) ensures |c| > 4 && c[4] in "cept " {
      assert c == ci || c in GateComponents(repo) || c == NpmGrep(package, new_);
    }
  }

  lemma DeferredFifths(repo: Checkout)
    ensures forall c :: c in Deferred(Npm, repo) ==> |c| > 4 && c[4] in "rept"
  {
    hide GateComponents;
    GateFifths(repo);
    var build := "npm run build";
    assert |build| > 4 && build[4] == 'r';
    forall c | c in Deferred(Npm, repo) ensures |c| > 4 && c[4] in "rept" {
      assert c == build || c in GateComponents(repo);
    }
  }

  lemma NpmDisjoint(repo: Checkout, package: string, new_: string, sites: seq<PinSite>)
    ensures Disjoint(NpmMutation(repo, package, new_, sites), NpmVerifier(repo, package, new_))
    ensures NpmInstall(package, new_, sites) !in Deferred(Npm, repo)
    ensures NpmGrep(package, new_) !in Deferred(Npm, repo)
    ensures "npm ci" !in Deferred(Npm, repo)
  {
    hide NpmInstall, NpmGrep, NpmMutation, NpmVerifier, Deferred;
    NpmFifths(package, new_, sites);
    MutationFifths(repo, package, new_, sites);
    VerifierFifths(repo, package, new_);
    DeferredFifths(repo);
    var ci := "npm ci";
    assert ci[4] == 'c';
  }

  lemma UvDisjoint(package: string, new_: string, sites: seq<PinSite>)
    requires UvMutation(package, new_, sites).Some?
    ensures Disjoint(UvMutation(package, new_, sites).value, ["uv lock --check"])
  {
    UvAddsShape(package, new_, sites, |sites| > 1);
    assert "uv lock --check"[3] == 'l';
    assert |"uv lock"| != |"uv lock --check"|;
  }

  lemma EnvelopeDisjoint(
      t: Tooling, repo: Checkout, package: string, old_: string, new_: string, sites: seq<PinSite>)
    requires Mutations(t, repo, package, old_, new_, sites).Some?
    ensures Disjoint(Mutations(t, repo, package, old_, new_, sites).value,
                     Verifiers(t, repo, package, new_, sites))
  {
    hide NpmMutation, NpmVerifier, PipMutation, PipVerifier, UvMutation;
    match t
    case Npm => NpmDisjoint(repo, package, new_, sites);
    case Pip => PipDisjoint(package, old_, new_, sites);
    case Uv => UvDisjoint(package, new_, sites);
    case UnknownTooling(_) =>
  }

  lemma {:induction false} OnlyKeeps(commands: seq<string>, keep: seq<string>)
    requires forall c :: c in commands ==> c in keep
    ensures Only(commands, keep) == commands
  {
    if commands != [] {
      assert commands == [commands[0]] + commands[1..];
      OnlyKeeps(commands[1..], keep);
    }
  }

  lemma {:induction false} OnlyDrops(commands: seq<string>, keep: seq<string>)
    requires Disjoint(commands, keep)
    ensures Only(commands, keep) == []
  {
    if commands != [] {
      assert commands == [commands[0]] + commands[1..];
      OnlyDrops(commands[1..], keep);
    }
  }

  lemma {:induction false} OnlyConcat(a: seq<string>, b: seq<string>, keep: seq<string>)
    ensures Only(a + b, keep) == Only(a, keep) + Only(b, keep)
  {
    if a == [] {
      assert a + b == b;
    } else {
      var head := if a[0] in keep then [a[0]] else [];
      assert (a + b)[0] == a[0] && (a + b)[1..] == a[1..] + b;
      OnlyConcat(a[1..], b, keep);
      assert head + (Only(a[1..], keep) + Only(b, keep)) == head + Only(a[1..], keep) + Only(b, keep);
    }
  }

  /** The finalize script -- the mutators in their allowed order, then the verify commands -- is the
  allowed list again: nothing is run twice, nothing is left out, and no verifier runs early. */
  lemma FinalizeReplaysAllowed(
      t: Tooling, repo: Checkout, package: string, old_: string, new_: string, sites: seq<PinSite>)
    requires BuildEnvelope(t, repo, package, old_, new_, sites).Envelope?
    ensures var c := BuildEnvelope(t, repo, package, old_, new_, sites).constraints;
            && c.verify.Some?
            && Disjoint(c.mutation, c.verify.value)
            && Only(c.allowed, c.mutation) + c.verify.value == c.allowed
  {
    hide Mutations, Verifiers, PlainPackage, PlainVersion, Only;
    var ms := Mutations(t, repo, package, old_, new_, sites).value;
    var vs := Verifiers(t, repo, package, new_, sites);
    EnvelopeDisjoint(t, repo, package, old_, new_, sites);
    SomeVerifier(t, repo, package, new_, sites);
    OnlyConcat(ms, vs, ms);
    OnlyKeeps(ms, ms);
    OnlyDrops(vs, ms);
  }

  lemma SomeVerifier(t: Tooling, repo: Checkout, package: string, new_: string, sites: seq<PinSite>)
    requires !t.UnknownTooling?
    ensures Verifiers(t, repo, package, new_, sites) != []
  {
  }

  // ----- the dry run before any work -----

  datatype DryRun = Drifted(unknown: seq<string>) | NothingToProve | Runs(admission: seq<string>)

  /** The two guards of `_prove_the_bump_is_possible`, and the commands they let through. */
  function DryRunOf(t: Tooling, repo: Checkout, allowed: seq<string>): DryRun {
    var deferred := Deferred(t, repo);
    var unknown := Excluding(deferred, allowed);
    if unknown != [] then Drifted(unknown)
    else
      var admission := Excluding(allowed, deferred);
      if admission == [] then NothingToProve else Runs(admission)
  }

  /** `_prove_the_bump_is_possible`, up to the dry run it then makes of the commands left. */
  method ProveTheBumpIsPossible(t: Tooling, repo: Checkout, allowed: seq<string>) returns (outcome: DryRun)
    ensures outcome == DryRunOf(t, repo, allowed)
    ensures outcome.Drifted? <==> exists c :: c in Deferred(t, repo) && c !in allowed
    ensures outcome.NothingToProve? <==> forall c :: c in Deferred(t, repo) <==> c in allowed
    ensures outcome.Runs? ==>
              forall c :: c in outcome.admission <==> c in allowed && c !in Deferred(t, repo)
  {
    hide Deferred;
    var deferred := CommandsDeferredToCoding(t, repo);
    var unknown := Excluding(deferred, allowed);
    ExcludingAll(deferred, allowed);
    if unknown != [] {
      return Drifted(unknown);
    }
    var admission := Excluding(allowed, deferred);
    ExcludingAll(allowed, deferred);
    ExcludingKeeps(allowed, deferred);
    return if admission == [] then NothingToProve else Runs(admission);
  }

  lemma {:induction false} ExcludingKeeps(commands: seq<string>, drop: seq<string>)
    ensures forall c :: c in Excluding(commands, drop) <==> c in commands && c !in drop
  {
    if commands != [] {
      assert commands == [commands[0]] + commands[1..];
      ExcludingKeeps(commands[1..], drop);
    }
  }

  lemma {:induction false} ExcludingAll(commands: seq<string>, drop: seq<string>)
    ensures Excluding(commands, drop) == [] <==> forall c :: c in commands ==> c in drop
  {
    if commands != [] {
      assert commands == [commands[0]] + commands[1..];
      ExcludingAll(commands[1..], drop);
    }
  }

  lemma {:induction false} ExcludingConcat(a: seq<string>, b: seq<string>, drop: seq<string>)
    ensures Excluding(a + b, drop) == Excluding(a, drop) + Excluding(b, drop)
  {
    if a == [] {
      assert a + b == b;
    } else {
      var head := if a[0] in drop then [] else [a[0]];
      assert (a + b)[0] == a[0] && (a + b)[1..] == a[1..] + b;
      ExcludingConcat(a[1..], b, drop);
      assert head + (Excluding(a[1..], drop) + Excluding(b, drop))
          == head + Excluding(a[1..], drop) + Excluding(b, drop);
    }
  }

  lemma {:induction false} ExcludingNone(commands: seq<string>, drop: seq<string>)
    requires Disjoint(commands, drop)
    ensures Excluding(commands, drop) == commands
  {
    if commands != [] {
      assert commands == [commands[0]] + commands[1..];
      ExcludingNone(commands[1..], drop);
    }
  }

  /** What authoring executes of an npm envelope: the install, the strict install, and the grep. */
  function NpmAdmission(repo: Checkout, package: string, new_: string, sites: seq<PinSite>): seq<string> {
    [NpmInstall(package, new_, sites)] + (if repo.lockfile then ["npm ci"] else [])
    + [NpmGrep(package, new_)]
  }

  lemma NpmAdmitted(repo: Checkout, package: string, new_: string, sites: seq<PinSite>)
    ensures Excluding(NpmMutation(repo, package, new_, sites) + NpmVerifier(repo, package, new_),
                      Deferred(Npm, repo))
            == NpmAdmission(repo, package, new_, sites)
  {
    hide NpmInstall, NpmGrep, GateComponents, Excluding;
    NpmDisjoint(repo, package, new_, sites);
    var d := Deferred(Npm, repo);
    var install, build, ci, gate, grep := [NpmInstall(package, new_, sites)], Build(repo),
      if repo.lockfile then ["npm ci"] else [], GateComponents(repo), [NpmGrep(package, new_)];
    ExcludingConcat(install + build, ci + gate + grep, d);
    ExcludingConcat(install, build, d);
    ExcludingConcat(ci + gate, grep, d);
    ExcludingConcat(ci, gate, d);
    ExcludingAll(build, d);
    ExcludingAll(gate, d);
    ExcludingNone(install, d);
    ExcludingNone(ci, d);
    ExcludingNone(grep, d);
  }

  /** The two guards' filters lose nothing: of an envelope built from the same checkout, every command is
  either executed before any work is done or deferred to coding, and as often as it is allowed. */
  lemma AdmittedOrDeferred(
      t: Tooling, repo: Checkout, package: string, old_: string, new_: string, sites: seq<PinSite>)
    requires BuildEnvelope(t, repo, package, old_, new_, sites).Envelope?
    ensures var allowed := BuildEnvelope(t, repo, package, old_, new_, sites).constraints.allowed;
            && DryRunOf(t, repo, allowed).Runs?
            && multiset(DryRunOf(t, repo, allowed).admission) + multiset(Deferred(t, repo))
               == multiset(allowed)
  {
    hide PlainPackage, PlainVersion, NpmInstall, NpmGrep, GateComponents, DryRunOf, PipMutation,
         PipVerifier, UvMutation;
    GuardsUnreachable(t, repo, package, old_, new_, sites);
  }

  /** Neither guard can fire on an envelope built from the same checkout, and what is then executed is
  everything but the commands whose failure is the assignment. */
  lemma GuardsUnreachable(
      t: Tooling, repo: Checkout, package: string, old_: string, new_: string, sites: seq<PinSite>)
    requires BuildEnvelope(t, repo, package, old_, new_, sites).Envelope?
    ensures var allowed := BuildEnvelope(t, repo, package, old_, new_, sites).constraints.allowed;
            && (forall c :: c in Deferred(t, repo) ==> c in allowed)
            && DryRunOf(t, repo, allowed)
               == Runs(if t.Npm? then NpmAdmission(repo, package, new_, sites) else allowed)
  {
    hide PlainPackage, PlainVersion, NpmInstall, NpmGrep, GateComponents, Excluding, PipMutation,
         PipVerifier, UvMutation;
    var allowed := BuildEnvelope(t, repo, package, old_, new_, sites).constraints.allowed;
    ExcludingAll(Deferred(t, repo), allowed);
    if t.Npm? {
      NpmAdmitted(repo, package, new_, sites);
    } else {
      ExcludingNone(allowed, []);
    }
  }
}
