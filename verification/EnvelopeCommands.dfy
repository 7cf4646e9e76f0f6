/** What the commands of an envelope say: the pins they replace, write and look for. */
module EnvelopeCommands {
  import opened Values
  import opened Sequences
  import opened Envelope

  // ----- pip -----

  /** Where `c` first is; the length when it is not there. */
  function Until(t: string, c: char): (n: nat)
    ensures n <= |t|
    ensures n < |t| ==> t[n] == c
    ensures forall i :: 0 <= i < n ==> t[i] != c
  {
    if |t| == 0 || t[0] == c then 0 else 1 + Until(t[1..], c)
  }

  /** A sed substitution as sed splits it. */
  datatype Substitution = Substitution(pattern: string, replacement: string, file: string)

  const SED := "sed -i 's/"

  function ReadSed(command: string): Option<Substitution> {
    if !StartsWith(command, SED) then None
    else
      var t := command[|SED|..];
      var n := Until(t, '/');
      if n == |t| then None
      else
        var u := t[n + 1..];
        var k := Until(u, '/');
        if !StartsWith(u[k..], "/' ") then None
        else Some(Substitution(t[..n], u[..k], u[k..][3..]))
  }

  lemma UntilIs(t: string, c: char, n: nat)
    requires n < |t| && t[n] == c && forall i :: 0 <= i < n ==> t[i] != c
    ensures Until(t, c) == n
  {
    assert Until(t, c) <= n;
  }

  lemma CutAfter(a: string, rest: string)
    ensures (a + rest)[..|a|] == a && (a + rest)[|a|..] == rest
  {
  }

  lemma AtSlash(a: string, b: string)
    requires '/' !in a
    ensures Until(a + "/" + b, '/') == |a|
    ensures (a + "/" + b)[..|a|] == a && (a + "/" + b)[|a|..] == "/" + b
  {
    hide Until;
    var t := a + ("/" + b);
    assert a + "/" + b == t;
    CutAfter(a, "/" + b);
    forall i | 0 <= i < |a| ensures t[i] != '/' {
      assert t[i] == a[i];
    }
    UntilIs(t, '/', |a|);
  }

  lemma ReadSedOf(pattern: string, replacement: string, file: string)
    requires '/' !in pattern && '/' !in replacement
    ensures ReadSed(SED + (pattern + "/" + (replacement + "/' " + file)))
            == Some(Substitution(pattern, replacement, file))
  {
    hide Until;
    var u := replacement + "/' " + file;
    var t := pattern + "/" + u;
    var command := SED + t;
    assert command[..|SED|] == SED && command[|SED|..] == t;
    AtSlash(pattern, u);
    assert t[|pattern| + 1..] == t[|pattern|..][1..] == u;
    assert u == replacement + "/" + ("' " + file);
    AtSlash(replacement, "' " + file);
    AfterQuote(file);
    assert u[|replacement|..] == "/" + ("' " + file);
  }

  lemma AfterQuote(file: string)
    ensures var t := "/" + ("' " + file);
            StartsWith(t, "/' ") && t[3..] == file
  {
    assert "/" + ("' " + file) == "/' " + file;
  }

  function Pin(package: string, version: string): string {
    package + "==" + version
  }

  lemma PipEditText(package: string, old_: string, new_: string, site: PinSite)
    ensures PipEdit(package, old_, new_, site)
            == SED + (("^" + Pin(package, old_) + "$") + "/" + (Pin(package, new_) + "/' " + site.file))
  {
    assert "sed -i 's/^" == SED + "^" && "$/" == "$" + "/";
  }

  lemma NoSlash(package: string, version: string)
    requires PlainVersion(version) && '/' !in package
    ensures '/' !in Pin(package, version)
  {
  }

  lemma SlashCutsShort(command: string, pattern: string, rest: string)
    requires command == SED + (pattern + rest) && '/' in pattern
    ensures ReadSed(command).Some? ==> ReadSed(command).value.pattern != pattern
  {
    assert command[|SED|..] == pattern + rest;
  }

  /** Sed reads the edit as it is meant -- the old pin, alone on its line, becomes the new one -- exactly
  when there is no slash in the package's name. */
  lemma PipEditReads(package: string, old_: string, new_: string, site: PinSite)
    requires PlainVersion(old_) && PlainVersion(new_)
    ensures ReadSed(PipEdit(package, old_, new_, site))
            == Some(Substitution("^" + Pin(package, old_) + "$", Pin(package, new_), site.file))
            <==> '/' !in package
  {
    hide ReadSed, PlainVersion, PipEdit, Pin;
    var pattern := "^" + Pin(package, old_) + "$";
    PipEditText(package, old_, new_, site);
    if '/' in package {
      SlashInPattern(package, old_);
      SlashCutsShort(PipEdit(package, old_, new_, site), pattern,
                     "/" + (Pin(package, new_) + "/' " + site.file));
      SameText(SED, pattern, "/" + (Pin(package, new_) + "/' " + site.file), Pin(package, new_), site.file);
    } else {
      NoSlash(package, old_);
      NoSlash(package, new_);
      assert '/' !in pattern;
      ReadSedOf(pattern, Pin(package, new_), site.file);
    }
  }

  lemma SlashInPattern(package: string, version: string)
    requires '/' in package
    ensures '/' in "^" + Pin(package, version) + "$"
  {
    var i :| 0 <= i < |package| && package[i] == '/';
    assert ("^" + Pin(package, version) + "$")[i + 1] == '/';
  }

  lemma SameText(sed: string, pattern: string, rest: string, pin: string, file: string)
    requires rest == "/" + (pin + "/' " + file)
    ensures sed + (pattern + "/" + (pin + "/' " + file)) == sed + (pattern + rest)
  {
    assert pattern + "/" + (pin + "/' " + file) == pattern + rest;
  }

  /** A scoped npm name is let through for pip too, and its edit replaces something else. */
  lemma ScopedPipEdit(package: string, old_: string, new_: string, site: PinSite)
    requires ScopedName(package) && NoDotDot(package) && PlainVersion(old_) && PlainVersion(new_)
    ensures PlainPackage(package)
    ensures ReadSed(PipEdit(package, old_, new_, site))
            != Some(Substitution("^" + Pin(package, old_) + "$", Pin(package, new_), site.file))
  {
    hide PlainVersion, PipEdit, ReadSed, Pin, NoDotDot, LowerWord;
    PipEditReads(package, old_, new_, site);
    var k :| 1 < k < |package| && package[k] == '/';
    assert package[k] in package;
  }

  lemma SomeScopedName()
    ensures ScopedName("@a/b") && NoDotDot("@a/b") && PlainVersion("1")
  {
    var s := "@a/b";
    assert s[0] == '@' && s[2] == '/' && s[1..2] == "a" && s[3..] == "b";
  }

  /** A pip envelope edits each site in turn, and its one verifier looks, as a whole line, for the pin the
  edits write: in `requirements.txt` if that is edited, else in the first file that is. */
  lemma PipEnvelope(repo: Checkout, package: string, old_: string, new_: string, sites: seq<PinSite>)
    requires BuildEnvelope(Pip, repo, package, old_, new_, sites).Envelope? && '/' !in package
    ensures var c := BuildEnvelope(Pip, repo, package, old_, new_, sites).constraints;
            && |c.mutation| == |sites| > 0
            && (forall i :: 0 <= i < |sites| ==>
                  ReadSed(c.mutation[i])
                  == Some(Substitution("^" + Pin(package, old_) + "$", Pin(package, new_), sites[i].file)))
            && var file := if exists s :: s in sites && s.file == "requirements.txt" then "requirements.txt"
                           else sites[0].file;
               c.verify == Some(["grep -qx '" + Pin(package, new_) + "' " + file])
  {
    hide PlainPackage, PlainVersion, PipEdit, ReadSed;
    Versions(package, old_, new_, Pip, repo, sites);
    forall i | 0 <= i < |sites|
      ensures ReadSed(PipEdit(package, old_, new_, sites[i]))
              == Some(Substitution("^" + Pin(package, old_) + "$", Pin(package, new_), sites[i].file))
    {
      PipEditReads(package, old_, new_, sites[i]);
    }
    PipLooksFor(package, new_, sites);
  }

  lemma Versions(
      package: string, old_: string, new_: string, t: Tooling, repo: Checkout, sites: seq<PinSite>)
    requires BuildEnvelope(t, repo, package, old_, new_, sites).Envelope?
    ensures PlainPackage(package) && PlainVersion(old_) && PlainVersion(new_)
  {
    hide PlainPackage, PlainVersion;
  }

  lemma PipLooksFor(package: string, new_: string, sites: seq<PinSite>)
    requires sites != []
    ensures var file := if exists s :: s in sites && s.file == "requirements.txt" then "requirements.txt"
                        else sites[0].file;
            PipVerifier(package, new_, sites) == ["grep -qx '" + Pin(package, new_) + "' " + file]
  {
    var name := "requirements.txt";
    var text := "grep -qx '" + Pin(package, new_) + "' ";
    assert "grep -qx '" + package + "==" + new_ + "' " == text;
    if exists i :: 0 <= i < |sites| && sites[i].file == name {
      var i :| 0 <= i < |sites| && sites[i].file == name;
      assert sites[i] in sites;
    }
  }

  // ----- uv -----

  /** How each kind of section is named to uv, for any group, extra and package; no other section is. */
  lemma UvSections(package: string, new_: string, name: string, frozen: bool)
    ensures var head := if frozen then "uv add --frozen " else "uv add ";
            var pin := "'" + package + ">=" + new_ + "'";
            && UvAdd(package, new_, "project.dependencies", frozen) == Some(head + pin)
            && UvAdd(package, new_, "dependency-groups." + name, frozen)
               == Some(head + (if name == "dev" then "--dev " else "--group " + name + " ") + pin)
            && UvAdd(package, new_, "optional-dependencies." + name, frozen)
               == Some(head + "--optional " + name + " " + pin)
  {
    hide UvAdd;
    UvPlain(package, new_, frozen);
    UvGroup(package, new_, name, frozen);
    UvExtra(package, new_, name, frozen);
  }

  lemma UvText(package: string, new_: string, section: string, frozen: bool, flag: string)
    requires UvSectionFlag(section) == Some(flag)
    ensures var head := if frozen then "uv add --frozen " else "uv add ";
            UvAdd(package, new_, section, frozen)
            == Some(head + ((if flag == "" then "" else flag + " ") + ("'" + package + ">=" + new_ + "'")))
  {
    hide UvSectionFlag;
    var tail := (if flag == "" then "" else flag + " ") + ("'" + package + ">=" + new_ + "'");
    assert "uv add " + ("--frozen " + tail) == "uv add --frozen " + tail;
    assert "uv add " + ("" + tail) == "uv add " + tail;
  }

  lemma UvPlain(package: string, new_: string, frozen: bool)
    ensures var head := if frozen then "uv add --frozen " else "uv add ";
            UvAdd(package, new_, "project.dependencies", frozen)
            == Some(head + ("'" + package + ">=" + new_ + "'"))
  {
    var pin := "'" + package + ">=" + new_ + "'";
    UvText(package, new_, "project.dependencies", frozen, "");
    assert "" + pin == pin;
  }

  lemma UvGroup(package: string, new_: string, name: string, frozen: bool)
    ensures var head := if frozen then "uv add --frozen " else "uv add ";
            UvAdd(package, new_, "dependency-groups." + name, frozen)
            == Some(head + (if name == "dev" then "--dev " else "--group " + name + " ")
                    + ("'" + package + ">=" + new_ + "'"))
  {
    hide UvAdd;
    var section := "dependency-groups." + name;
    GroupFlag(name);
    var flag := if name == "dev" then "--dev" else "--group " + name;
    UvText(package, new_, section, frozen, flag);
    var head := if frozen then "uv add --frozen " else "uv add ";
    var pin := "'" + package + ">=" + new_ + "'";
    assert flag != "" && flag + " " == if name == "dev" then "--dev " else "--group " + name + " ";
    assert head + ((flag + " ") + pin) == head + (flag + " ") + pin;
  }

  lemma GroupFlag(name: string)
    ensures UvSectionFlag("dependency-groups." + name)
            == Some(if name == "dev" then "--dev" else "--group " + name)
  {
    var section := "dependency-groups." + name;
    assert section[0] == 'd' && "project.dependencies"[0] == 'p';
    assert section[..|GROUPS|] == GROUPS && section[|GROUPS|..] == name;
  }

  lemma UvExtra(package: string, new_: string, name: string, frozen: bool)
    ensures var head := if frozen then "uv add --frozen " else "uv add ";
            UvAdd(package, new_, "optional-dependencies." + name, frozen)
            == Some(head + "--optional " + name + " " + ("'" + package + ">=" + new_ + "'"))
  {
    hide UvAdd;
    var section := "optional-dependencies." + name;
    ExtraFlag(name);
    var flag := "--optional " + name;
    UvText(package, new_, section, frozen, flag);
    var head := if frozen then "uv add --frozen " else "uv add ";
    var pin := "'" + package + ">=" + new_ + "'";
    assert flag != "";
    assert head + ((flag + " ") + pin) == head + "--optional " + name + " " + pin;
  }

  lemma ExtraFlag(name: string)
    ensures UvSectionFlag("optional-dependencies." + name) == Some("--optional " + name)
  {
    var section := "optional-dependencies." + name;
    assert section[0] == 'o' && "project.dependencies"[0] == 'p' && GROUPS[0] == 'd';
    DifferentStart(section, GROUPS);
    assert section[..|EXTRAS|] == EXTRAS && section[|EXTRAS|..] == name;
  }

  lemma DifferentStart(s: string, p: string)
    requires |s| > 0 && |p| > 0 && s[0] != p[0]
    ensures !StartsWith(s, p)
  {
    assert |p| <= |s| ==> s[..|p|][0] == s[0];
  }

  /** A uv envelope locks one site as it edits it; several it edits without locking and then locks once. Its
  one verifier checks the lock. */
  lemma UvEnvelope(
      repo: Checkout, package: string, old_: string, new_: string, sites: seq<PinSite>, i: nat)
    requires BuildEnvelope(Uv, repo, package, old_, new_, sites).Envelope? && i < |sites|
    ensures var c := BuildEnvelope(Uv, repo, package, old_, new_, sites).constraints;
            && |c.mutation| == (if |sites| == 1 then 1 else |sites| + 1)
            && Some(c.mutation[i]) == UvAdd(package, new_, sites[i].section, |sites| > 1)
            && (|sites| > 1 ==> c.mutation[|sites|] == "uv lock")
            && c.verify == Some(["uv lock --check"])
  {
    hide UvAdd, PlainPackage, PlainVersion;
    UvEach(package, new_, sites, |sites| > 1);
  }

  lemma {:induction false} UvEach(package: string, new_: string, sites: seq<PinSite>, frozen: bool)
    requires UvAdds(package, new_, sites, frozen).Some?
    ensures var adds := UvAdds(package, new_, sites, frozen).value;
            && |adds| == |sites|
            && forall i :: 0 <= i < |sites| ==>
                 UvAdd(package, new_, sites[i].section, frozen) == Some(adds[i])
  {
    hide UvAdd;
    if sites != [] {
      UvEach(package, new_, sites[1..], frozen);
      assert forall i :: 0 < i < |sites| ==> sites[i] == sites[1..][i - 1];
    }
  }

  // ----- npm -----

  /** An npm envelope installs exactly the version its last verifier looks for, as a development dependency
  exactly when every site is one; then it builds, if the checkout can. */
  lemma NpmEnvelope(repo: Checkout, package: string, old_: string, new_: string, sites: seq<PinSite>)
    requires BuildEnvelope(Npm, repo, package, old_, new_, sites).Envelope?
    ensures var c := BuildEnvelope(Npm, repo, package, old_, new_, sites).constraints;
            var dev := sites != [] && forall s :: s in sites ==> s.section == "devDependencies";
            && |c.mutation| == (if repo.buildScript then 2 else 1)
            && c.mutation[0] == "npm install " + package + "@" + new_ + " --save-exact"
                                + (if dev then " --save-dev" else "")
            && (repo.buildScript ==> c.mutation[1] == "npm run build")
            && c.verify.Some? && |c.verify.value| > 0
            && c.verify.value[|c.verify.value| - 1]
               == "grep -q '\"" + package + "\": \"" + new_ + "\"' package.json"
            && ("npm ci" in c.verify.value <==> repo.lockfile)
            && (forall part :: part in GateComponents(repo) ==> part in c.verify.value)
  {
    NpmTexts(package, new_);
    NpmInstallText(package, new_, sites);
    NpmCi(repo, package, new_);
    hide NpmInstall, NpmGrep, GateComponents, PlainPackage, PlainVersion;
    var v := NpmVerifier(repo, package, new_);
    assert v[|v| - 1] == NpmGrep(package, new_);
  }

  lemma NpmCi(repo: Checkout, package: string, new_: string)
    ensures "npm ci" in NpmVerifier(repo, package, new_) <==> repo.lockfile
    ensures forall part :: part in GateComponents(repo) ==> part in NpmVerifier(repo, package, new_)
  {
    hide NpmGrep, GateComponents;
    NpmFifths(package, new_, []);
    GateFifths(repo);
    var ci := "npm ci";
    assert ci[4] == 'c';
    var locked := if repo.lockfile then [ci] else [];
    assert NpmVerifier(repo, package, new_) == locked + GateComponents(repo) + [NpmGrep(package, new_)];
  }

  lemma NpmInstallText(package: string, new_: string, sites: seq<PinSite>)
    ensures var dev := sites != [] && forall s :: s in sites ==> s.section == "devDependencies";
            NpmInstall(package, new_, sites)
            == "npm install " + package + "@" + new_ + " --save-exact" + if dev then " --save-dev" else ""
  {
    NpmTexts(package, new_);
    assert (forall i :: 0 <= i < |sites| ==> sites[i].section == "devDependencies")
           <==> forall s :: s in sites ==> s.section == "devDependencies";
  }

  lemma NpmTexts(package: string, new_: string)
    ensures forall tail :: "npm install " + (package + "@" + new_ + " --save-exact" + tail)
                           == "npm install " + package + "@" + new_ + " --save-exact" + tail
    ensures NpmGrep(package, new_) == "grep -q '\"" + package + "\": \"" + new_ + "\"' package.json"
  {
    var grep := "grep -q '" + ("\"" + package + "\": \"" + new_ + "\"' package.json");
    assert grep == "grep -q '\"" + package + "\": \"" + new_ + "\"' package.json";
  }

  /** Each part of the gate is named exactly where the checkout has it. */
  lemma GateParts(repo: Checkout)
    ensures "npx eslint ." in GateComponents(repo) <==> repo.eslintConfig
    ensures "npx prettier --check ." in GateComponents(repo) <==> repo.prettierConfig
    ensures "npm test" in GateComponents(repo) <==> repo.testScript
  {
    var e, p, t := "npx eslint .", "npx prettier --check .", "npm test";
    assert e[4] == 'e' && p[4] == 'p' && t[4] == 't';
  }

  // ----- when an envelope is built -----

  ghost predicate UvKnows(section: string) {
    || section == "project.dependencies"
    || "dependency-groups." <= section
    || "optional-dependencies." <= section
  }

  lemma UvKnowsIff(section: string)
    ensures UvSectionFlag(section).Some? <==> UvKnows(section)
  {
  }

  lemma {:induction false} UvAddsDefined(package: string, new_: string, sites: seq<PinSite>, frozen: bool)
    ensures UvAdds(package, new_, sites, frozen).Some? <==>
              forall i :: 0 <= i < |sites| ==> UvKnows(sites[i].section)
  {
    hide UvKnows, UvSectionFlag;
    if sites != [] {
      UvKnowsIff(sites[0].section);
      UvAddsDefined(package, new_, sites[1..], frozen);
      assert forall i :: 0 < i < |sites| ==> sites[i] == sites[1..][i - 1];
    }
  }

  /** An envelope is built exactly for a known tooling, safe names, sections uv knows, and something to do. */
  lemma BuildsIff(
      t: Tooling, repo: Checkout, package: string, old_: string, new_: string, sites: seq<PinSite>)
    ensures BuildEnvelope(t, repo, package, old_, new_, sites).Envelope? <==>
              && !t.UnknownTooling?
              && PlainPackage(package) && PlainVersion(old_) && PlainVersion(new_)
              && (t == Npm || sites != [])
              && (t == Uv ==> forall i :: 0 <= i < |sites| ==> UvKnows(sites[i].section))
  {
    hide PlainPackage, PlainVersion, UvAdds, UvKnows, NpmInstall, PipEdit;
    UvAddsDefined(package, new_, sites, |sites| > 1);
    if t == Uv && UvAdds(package, new_, sites, |sites| > 1).Some? {
      UvEach(package, new_, sites, |sites| > 1);
    }
  }

  // ----- names -----

  /** A first character that is a letter or a digit, and after it those and the marks. */
  ghost predicate Token(s: string, capitals: bool, marks: string) {
    && s != "" && s[0] !in marks
    && forall c :: c in s ==>
         'a' <= c <= 'z' || '0' <= c <= '9' || (capitals && 'A' <= c <= 'Z') || c in marks
  }

  ghost predicate HasDotDot(s: string) {
    exists a, b :: s == a + ".." + b
  }

  /** The names and versions let through, and no others. */
  lemma PlainNames(s: string)
    ensures PlainVersion(s) <==> Token(s, true, ".+!_-")
    ensures PlainPackage(s) <==>
              && !HasDotDot(s)
              && (Token(s, true, "._-")
                  || exists scope, name ::
                       && s == "@" + scope + "/" + name
                       && Token(scope, false, "._-") && Token(name, false, "._-"))
  {
    hide Token, NoDotDot, HasDotDot, LowerWord, PlainWord;
    VersionToken(s);
    WordToken(s);
    DotDotIff(s);
    if ScopedName(s) {
      var k :| 1 < k < |s| && s[0] == '@' && s[k] == '/' && LowerWord(s[1..k]) && LowerWord(s[k + 1..]);
      LowerToken(s[1..k]);
      LowerToken(s[k + 1..]);
      assert s == "@" + s[1..k] + "/" + s[k + 1..];
    }
    forall scope, name | s == "@" + scope + "/" + name && Token(scope, false, "._-") && Token(name, false, "._-")
      ensures ScopedName(s)
    {
      LowerToken(scope);
      LowerToken(name);
      var k := 1 + |scope|;
      assert s[1..k] == scope && s[k + 1..] == name && s[k] == '/' && s[0] == '@';
      WordNotEmpty(scope);
      WordNotEmpty(name);
    }
  }

  lemma WordNotEmpty(s: string)
    requires LowerWord(s)
    ensures |s| > 0
  {
  }

  lemma InText(s: string)
    ensures forall c :: c in s ==> exists i :: 0 <= i < |s| && s[i] == c
    ensures forall i :: 0 <= i < |s| ==> s[i] in s
  {
  }

  lemma VersionToken(s: string)
    ensures PlainVersion(s) <==> Token(s, true, ".+!_-")
  {
    InText(s);
  }

  lemma WordToken(s: string)
    ensures PlainWord(s) <==> Token(s, true, "._-")
  {
    InText(s);
  }

  lemma LowerToken(s: string)
    ensures LowerWord(s) <==> Token(s, false, "._-")
  {
    InText(s);
  }

  lemma DotDotIff(s: string)
    ensures NoDotDot(s) <==> !HasDotDot(s)
  {
    if !NoDotDot(s) {
      var i :| 0 <= i < |s| - 1 && s[i] == '.' && s[i + 1] == '.';
      assert s == s[..i] + ".." + s[i + 2..];
    }
    forall a, b | s == a + ".." + b ensures !NoDotDot(s) {
      var i := |a|;
      assert s[i] == '.' && s[i + 1] == '.';
    }
  }

  /** Why an envelope is not built: the first of these that applies. */
  lemma RefusalTold(
      t: Tooling, repo: Checkout, package: string, old_: string, new_: string, sites: seq<PinSite>)
    requires BuildEnvelope(t, repo, package, old_, new_, sites).Refused?
    ensures match BuildEnvelope(t, repo, package, old_, new_, sites).why
            case UnknownToolingName => t.UnknownTooling?
            case UnsafeField =>
              !t.UnknownTooling? && !(PlainPackage(package) && PlainVersion(old_) && PlainVersion(new_))
            case UnknownSection =>
              && t == Uv && PlainPackage(package) && PlainVersion(old_) && PlainVersion(new_)
              && exists s :: s in sites && !UvKnows(s.section)
            case NoMutations =>
              && (t == Uv || t == Pip) && sites == []
              && PlainPackage(package) && PlainVersion(old_) && PlainVersion(new_)
  {
    hide PlainPackage, PlainVersion, UvAdds, UvKnows, NpmInstall, PipEdit;
    UvAddsDefined(package, new_, sites, |sites| > 1);
    if t == Uv && UvAdds(package, new_, sites, |sites| > 1).None? {
      var i :| 0 <= i < |sites| && !UvKnows(sites[i].section);
      assert sites[i] in sites;
    }
    if t == Uv && UvAdds(package, new_, sites, |sites| > 1).Some? {
      UvEach(package, new_, sites, |sites| > 1);
    }
  }

  predicate Safe(c: char) { Alnum(c) || c in ".+!_-@/" }

  /** What is let through is letters, digits and a few marks, not led by a dash, with a slash only in a
  scoped name. */
  lemma SafeNames(package: string, version: string)
    requires PlainPackage(package) && PlainVersion(version)
    ensures forall c :: c in package || c in version ==> Safe(c)
    ensures '/' in package ==> package[0] == '@'
    ensures '/' !in version && package != "" && version != ""
    ensures package[0] != '-' && version[0] != '-'
  {
    hide PlainPackage, PlainVersion, Safe;
    PackageChars(package);
    VersionChars(version);
  }

  lemma VersionChars(s: string)
    requires PlainVersion(s)
    ensures s != "" && s[0] != '-' && '/' !in s && forall c :: c in s ==> Safe(c)
  {
  }

  lemma PackageChars(s: string)
    requires PlainPackage(s)
    ensures s != "" && s[0] != '-' && ('/' in s ==> s[0] == '@') && forall c :: c in s ==> Safe(c)
  {
    hide NoDotDot, LowerWord;
    if PlainWord(s) {
      WordChars(s);
    } else {
      var k :| 1 < k < |s| && s[0] == '@' && s[k] == '/' && LowerWord(s[1..k]) && LowerWord(s[k + 1..]);
      ScopedChars(s, k);
    }
  }

  lemma WordChars(s: string)
    requires PlainWord(s)
    ensures '/' !in s && forall c :: c in s ==> Safe(c)
  {
  }

  lemma ScopedChars(s: string, k: nat)
    requires 1 < k < |s| && s[0] == '@' && s[k] == '/' && LowerWord(s[1..k]) && LowerWord(s[k + 1..])
    ensures forall c :: c in s ==> Safe(c)
  {
    forall i | 0 <= i < |s| ensures Safe(s[i]) {
      if 1 <= i < k {
        assert s[1..k][i - 1] == s[i];
      } else if i > k {
        assert s[k + 1..][i - k - 1] == s[i];
      }
    }
  }
}
