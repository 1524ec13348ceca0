/** The names a runtime plan is made of (scripts/claude_host_artifacts.py). */
module RuntimeNames {
  import opened Texts
  import opened Wrappers
  import opened PathParts
  import opened ArtifactInventory
  import opened FileSystem
  import opened Materialize
  import opened RuntimeShape

  const RUNTIME_LIMIT := 20000
  const DEPTH := 32

  const LIBRARY := Lit("usr/lib/python3.12")
  const PYTHON := Lit("usr/bin/python3.12")
  const SHARED_SUFFIX := Lit(".so")
  const GIT_BINARY := Lit("usr/bin/git")
  const SHELL := Lit("bin/sh")
  const CERTS := Lit("etc/ssl/certs")
  const TRUST_BUNDLE := CERTS + [SLASH] + Lit("ca-certificates.crt")
  const LOADER := Lit("lib64") + [SLASH] + Lit("ld-linux-x86-64.so.2")
  const LIBEXEC := Lit("usr/libexec")
  const PYTHON_LINK := Lit("usr/bin/python3")
  const PYTHON_NAME := Lit("python3.12")
  const MULTIARCH := Lit("lib/x86_64-linux-gnu")
  const HOST_LIB := Lit("usr/lib/x86_64-linux-gnu")
  const OPT_CLAUDE := Lit("opt/claude")
  const ETC_CLAUDE := Lit("etc/claude-code")
  const SETTINGS := ETC_CLAUDE + [SLASH] + Lit("managed-settings.json")
  const MCP := ETC_CLAUDE + [SLASH] + Lit("managed-mcp.json")
  const EGRESS := Lit("vendor-egress.sock")

  function HostNames(): seq<Text> { [PYTHON, GIT_BINARY, TRUST_BUNDLE, SHELL, LOADER] }

  function ExtraLibraries(): seq<Text> { [Lit("librt.so.1"), Lit("libpthread.so.0"), Lit("libdl.so.2")] }

  function ExtraName(i: nat): Text
    requires i < |ExtraLibraries()|
  {
    MULTIARCH + [SLASH] + ExtraLibraries()[i]
  }

  function MountPoints(): seq<Text> {
    [Lit("proc"), Lit("dev"), Lit("tmp"), Lit("workspace"), OPT_CLAUDE, ETC_CLAUDE]
  }

  /** The names assigned last. */
  predicate Placeholder(name: Text) { name == SETTINGS || name == MCP || name == EGRESS || name == PYTHON_LINK }

  predicate Ignored(name: Text) {
    name in [Lit("__pycache__"), Lit("test"), Lit("tests"), Lit("ensurepip"), Lit("idlelib")]
  }

  // ----- names from the host -----

  predicate PlainPiece(piece: Text, word: Code -> bool) {
    piece != [] && forall i | 0 <= i < |piece| :: word(piece[i]) || piece[i] in Lit(".+-")
  }

  /** [\w.+-]+(/[\w.+-]+)* without a part "." or "..". */
  predicate PlainName(name: Text, word: Code -> bool) {
    && (forall p | p in Split(name, SLASH) :: PlainPiece(p, word))
    && HERE !in Split(name, SLASH) && DOTDOT !in Split(name, SLASH)
  }

  lemma PlainNameCanonical(name: Text, word: Code -> bool)
    requires PlainName(name, word)
    ensures Canonical(name) && name != HERE && Parts(name) == Split(name, SLASH)
  {
    var pieces := Split(name, SLASH);
    SplitIsClean(name, SLASH);
    JoinSplit(name, SLASH);
    assert forall p | p in pieces :: IsPart(p);
    KeepAll(pieces);
    PartsOfRender(pieces);
    assert Render(pieces) == name;
    if name == HERE { SplitOfClean(HERE, SLASH); }
  }

  /** dependency.lstrip("/") */
  function Lstrip(t: Text): (r: Text)
    ensures |r| <= |t| && t[|t| - |r|..] == r && (r == [] || r[0] != SLASH)
    ensures forall i | 0 <= i < |t| - |r| :: t[i] == SLASH
  {
    if t != [] && t[0] == SLASH then Lstrip(t[1..]) else t
  }

  function Stripped(names: seq<Text>): (r: seq<Text>)
    ensures |r| == |names| && forall i | 0 <= i < |r| :: r[i] == Lstrip(names[i])
  {
    seq(|names|, i requires 0 <= i < |names| => Lstrip(names[i]))
  }

  // ----- names of literal parts -----

  /** A literal file name that does not start with a dot. */
  predicate Undotted(s: string) {
    s != "" && s[0] != '.' && forall i | 0 <= i < |s| :: s[i] != '/'
  }

  lemma OnePart(name: Text)
    requires OrdinaryName(name)
    ensures Canonical(name) && Parts(name) == [name] && name != HERE
  {
    OrdinaryRender([name]);
    assert Render([name]) == name;
  }

  lemma OrdinaryLit(s: string)
    requires Undotted(s)
    ensures OrdinaryName(Lit(s)) && Canonical(Lit(s)) && Parts(Lit(s)) == [Lit(s)] && Lit(s) != HERE
  {
    assert Lit(s)[0] != DOT;
    OnePart(Lit(s));
  }

  lemma LitUnder(dir: string, last: string, name: string)
    requires Canonical(Lit(dir)) && Lit(dir) != HERE && Undotted(last) && name == dir + "/" + last
    ensures Canonical(Lit(name)) && Parts(Lit(name)) == Parts(Lit(dir)) + [Lit(last)] && Lit(name) != HERE
  {
    OrdinaryLit(last);
    assert Lit(name) == Lit(dir) + [SLASH] + Lit(last);
    ChildName(Lit(dir), Lit(last));
  }

  lemma TwoLits(a: string, b: string, name: string)
    requires Undotted(a) && Undotted(b) && name == a + "/" + b
    ensures Canonical(Lit(name)) && Parts(Lit(name)) == [Lit(a), Lit(b)] && Lit(name) != HERE
  {
    OrdinaryLit(a);
    LitUnder(a, b, name);
  }

  lemma ThreeLits(a: string, b: string, c: string, name: string)
    requires Undotted(a) && Undotted(b) && Undotted(c) && name == a + "/" + b + "/" + c
    ensures Canonical(Lit(name)) && Parts(Lit(name)) == [Lit(a), Lit(b), Lit(c)] && Lit(name) != HERE
  {
    TwoLits(a, b, a + "/" + b);
    LitUnder(a + "/" + b, c, name);
  }

  lemma LibraryParts()
    ensures Canonical(LIBRARY) && LIBRARY != HERE && Parts(LIBRARY) == [Lit("usr"), Lit("lib"), PYTHON_NAME]
  {
    ThreeLits("usr", "lib", "python3.12", "usr/lib/python3.12");
  }

  lemma LibexecParts()
    ensures Canonical(LIBEXEC) && LIBEXEC != HERE && Parts(LIBEXEC) == [Lit("usr"), Lit("libexec")]
    ensures |LIBEXEC| == 11
  {
    TwoLits("usr", "libexec", "usr/libexec");
  }

  lemma LinkParts()
    ensures Canonical(PYTHON_LINK) && PYTHON_LINK != HERE && Parts(PYTHON_LINK) == [Lit("usr"), Lit("bin"), Lit("python3")]
  {
    ThreeLits("usr", "bin", "python3", "usr/bin/python3");
  }

  lemma UnderEtcClaude(last: string)
    requires Undotted(last)
    ensures var name := ETC_CLAUDE + [SLASH] + Lit(last);
      Canonical(name) && name != HERE && Parts(name) == [Lit("etc"), Lit("claude-code"), Lit(last)]
  {
    EtcClaudeParts();
    OrdinaryLit(last);
    ChildName(ETC_CLAUDE, Lit(last));
  }

  lemma SettingsParts()
    ensures Canonical(SETTINGS) && SETTINGS != HERE
    ensures Parts(SETTINGS) == [Lit("etc"), Lit("claude-code"), Lit("managed-settings.json")]
  {
    UnderEtcClaude("managed-settings.json");
  }

  lemma McpParts()
    ensures Canonical(MCP) && MCP != HERE && Parts(MCP) == [Lit("etc"), Lit("claude-code"), Lit("managed-mcp.json")]
  {
    UnderEtcClaude("managed-mcp.json");
  }

  lemma EgressParts()
    ensures Canonical(EGRESS) && EGRESS != HERE && Parts(EGRESS) == [EGRESS]
  {
    OrdinaryLit("vendor-egress.sock");
  }

  lemma EtcClaudeParts()
    ensures Canonical(ETC_CLAUDE) && ETC_CLAUDE != HERE && Parts(ETC_CLAUDE) == [Lit("etc"), Lit("claude-code")]
  {
    TwoLits("etc", "claude-code", "etc/claude-code");
  }

  lemma MultiarchParts()
    ensures Canonical(MULTIARCH) && MULTIARCH != HERE && Parts(MULTIARCH) == [Lit("lib"), Lit("x86_64-linux-gnu")]
  {
    TwoLits("lib", "x86_64-linux-gnu", "lib/x86_64-linux-gnu");
  }

  /** Which parts a mount point has. */
  lemma MountParts(i: nat)
    requires i < |MountPoints()|
    ensures var n := MountPoints()[i];
      Canonical(n) && n != HERE && 1 <= |Parts(n)| <= 2 && |Parts(n)[0]| <= 9
  {
    if i == 0 { OrdinaryLit("proc"); }
    else if i == 1 { OrdinaryLit("dev"); }
    else if i == 2 { OrdinaryLit("tmp"); }
    else if i == 3 { OrdinaryLit("workspace"); }
    else if i == 4 { TwoLits("opt", "claude", "opt/claude"); }
    else { EtcClaudeParts(); }
  }

  lemma ExtraLast(i: nat)
    requires i < |ExtraLibraries()|
    ensures OrdinaryName(ExtraLibraries()[i])
  {
    if i == 0 { OrdinaryLit("librt.so.1"); }
    else if i == 1 { OrdinaryLit("libpthread.so.0"); }
    else { OrdinaryLit("libdl.so.2"); }
  }

  lemma ExtraParts(i: nat)
    requires i < |ExtraLibraries()|
    ensures Canonical(ExtraName(i)) && ExtraName(i) != HERE
    ensures Parts(ExtraName(i)) == [Lit("lib"), Lit("x86_64-linux-gnu"), ExtraLibraries()[i]]
  {
    MultiarchParts();
    ExtraLast(i);
    ChildName(MULTIARCH, ExtraLibraries()[i]);
  }

  // ----- the helpers' names, from source constants -----

  predicate HelperBase(base: Text) { base != [] && SLASH !in base }

  /** "usr/libexec/" + base. */
  function HelperName(base: Text): Text { LIBEXEC + [SLASH] + base }

  lemma HelperParts(base: Text)
    requires HelperBase(base)
    ensures Relative(HelperName(base)) && Parts(HelperName(base)) == Parts(LIBEXEC) + KeepParts([base])
  {
    LibexecParts();
    assert HelperName(base)[0] == LIBEXEC[0];
    SplitAppend(LIBEXEC, base, SLASH);
    SplitOfClean(base, SLASH);
    KeepAppend(Split(LIBEXEC, SLASH), [base]);
  }

  lemma KeepOne(base: Text)
    requires base != []
    ensures KeepParts([base]) == if base == HERE then [] else [base]
  {}

  lemma HereUnder(dir: Text, name: Text)
    requires Canonical(dir) && |dir| < |name| && Parts(name) == Parts(dir)
    ensures !Canonical(name)
  {}

  /** A helper's name is in canonical form unless its base is "." or "..". */
  lemma HelperCanonical(base: Text)
    requires HelperBase(base)
    ensures Relative(HelperName(base)) && HelperName(base) != HERE
    ensures Canonical(HelperName(base)) <==> base != HERE && base != DOTDOT
    ensures Parts(HelperName(base)) == if base == HERE then [Lit("usr"), Lit("libexec")] else [Lit("usr"), Lit("libexec"), base]
  {
    LibexecParts();
    HelperParts(base);
    KeepOne(base);
    var name := HelperName(base);
    if base == HERE { HereUnder(LIBEXEC, name); }
    else if base == DOTDOT { assert Parts(name)[2] == DOTDOT; }
    else { ChildName(LIBEXEC, base); }
  }

  lemma HelperNotPlaceholder(base: Text)
    ensures !Placeholder(HelperName(base))
  {
    var name := HelperName(base);
    assert name[0] == LIBEXEC[0] == 'u' as int && name[4] == LIBEXEC[4] == 'l' as int;
    assert SETTINGS[0] == 'e' as int && MCP[0] == 'e' as int && EGRESS[0] == 'v' as int && PYTHON_LINK[4] == 'b' as int;
  }

  lemma HelperNotExtra(base: Text, i: nat)
    requires i < |ExtraLibraries()|
    ensures HelperName(base) != ExtraName(i)
  {
    assert HelperName(base)[0] == LIBEXEC[0] == 'u' as int && ExtraName(i)[0] == MULTIARCH[0] == 'l' as int;
  }

  lemma ExtraNotPlaceholder(i: nat)
    requires i < |ExtraLibraries()|
    ensures !Placeholder(ExtraName(i))
  {
    assert ExtraName(i)[0] == MULTIARCH[0] == 'l' as int;
    assert SETTINGS[0] == 'e' as int && MCP[0] == 'e' as int && EGRESS[0] == 'v' as int && PYTHON_LINK[0] == 'u' as int;
  }

  lemma PlaceholdersDiffer()
    ensures |SETTINGS| == 37 && |MCP| == 32 && |EGRESS| == 18 && |PYTHON_LINK| == 15 && |HERE| == 1
  {}

  // ----- how the fixed names lie -----

  /** The sources of the two helpers. */
  datatype Helpers = Helpers(supervisor: Text, supervisorData: Text, bridge: Text, bridgeData: Text) {
    predicate Based() { HelperBase(supervisor) && HelperBase(bridge) }
    function Names(): set<Text> { {HelperName(supervisor), HelperName(bridge)} }

    /** Neither helper is called "." or "..", which the script's own pattern for its path admits. */
    predicate Plain() { supervisor !in {HERE, DOTDOT} && bridge !in {HERE, DOTDOT} }
  }

  predicate IsExtraName(name: Text) { exists i | 0 <= i < |ExtraLibraries()| :: name == ExtraName(i) }

  /** The names that a plan holds as files or as a link, whatever the host. */
  predicate FixedFile(helpers: Helpers, name: Text) {
    IsExtraName(name) || name in helpers.Names() || Placeholder(name)
  }

  predicate FixedName(helpers: Helpers, name: Text) {
    FixedFile(helpers, name) || name in MountPoints()
  }

  /** A fixed name has at most three parts, and does not lie under the socket's name. */
  lemma FixedNameParts(helpers: Helpers, name: Text)
    requires helpers.Based() && FixedName(helpers, name)
    ensures Relative(name) && 1 <= |Parts(name)| <= 3 && name != HERE
    ensures |Parts(name)| > 1 ==> Parts(name)[0] != EGRESS
    ensures name in MountPoints() ==> |Parts(name)| <= 2
    ensures FixedFile(helpers, name) && helpers.Plain() ==> |Parts(name)| == 3 || Parts(name) == [EGRESS]
  {
    assert |Lit("usr")| == 3 && |Lit("etc")| == 3 && |Lit("lib")| == 3 && |EGRESS| == 18;
    if name in MountPoints() {
      var i :| 0 <= i < |MountPoints()| && MountPoints()[i] == name;
      MountParts(i);
      assert !FixedFile(helpers, name) by { MountIsNoFile(helpers, name); }
    } else if IsExtraName(name) {
      var i :| 0 <= i < |ExtraLibraries()| && name == ExtraName(i);
      ExtraParts(i);
    } else if name in helpers.Names() {
      HelperCanonical(if name == HelperName(helpers.supervisor) then helpers.supervisor else helpers.bridge);
      assert |name| > |LIBEXEC|;
    } else {
      PlaceholderParts(name);
    }
  }

  /** Parts that do not begin the library's name. */
  predicate BesideLibrary(parts: seq<Text>) { parts != [] && !(parts <= Parts(LIBRARY)) }

  lemma Beside(parts: seq<Text>, k: nat)
    requires k < |parts| && k < 2
    requires k == 0 ==> parts[0] == Lit("etc") || parts[0] == EGRESS
    requires k == 1 ==> parts[1] == Lit("bin")
    ensures BesideLibrary(parts)
    ensures parts[0] == Lit("etc") || parts[0] == Lit("usr") ==> |parts[0]| == 3
  {
    LibraryParts();
    LitsDiffer();
  }

  /** A canonical name beside the library, of three parts or the socket's. */
  predicate PlaceholderLies(name: Text) {
    && Canonical(name) && name != HERE && BesideLibrary(Parts(name))
    && (if |Parts(name)| == 3 then |Parts(name)[0]| == 3 else Parts(name) == [EGRESS])
  }

  lemma SettingsLies()
    ensures PlaceholderLies(SETTINGS)
  {
    SettingsParts();
    Beside(Parts(SETTINGS), 0);
  }

  lemma McpLies()
    ensures PlaceholderLies(MCP)
  {
    McpParts();
    Beside(Parts(MCP), 0);
  }

  lemma EgressLies()
    ensures PlaceholderLies(EGRESS)
  {
    EgressParts();
    Beside(Parts(EGRESS), 0);
  }

  lemma LinkLies()
    ensures PlaceholderLies(PYTHON_LINK)
  {
    LinkParts();
    Beside(Parts(PYTHON_LINK), 1);
  }

  lemma PlaceholderParts(name: Text)
    requires Placeholder(name)
    ensures PlaceholderLies(name)
  {
    if name == SETTINGS { SettingsLies(); }
    else if name == MCP { McpLies(); }
    else if name == EGRESS { EgressLies(); }
    else { LinkLies(); }
  }

  lemma LitsDiffer()
    ensures Lit("etc") != Lit("usr") && Lit("bin") != Lit("lib") && EGRESS != Lit("usr") && |Lit("etc")| == |Lit("usr")| == 3
  {
    assert Lit("etc")[0] != Lit("usr")[0] && Lit("bin")[0] != Lit("lib")[0] && |EGRESS| == 18;
  }

  lemma MountIsNoFile(helpers: Helpers, name: Text)
    requires helpers.Based() && name in MountPoints()
    ensures !FixedFile(helpers, name)
  {
    PlaceholdersDiffer();
    assert |MULTIARCH| == 20 && |LIBEXEC| == 11 && |OPT_CLAUDE| == 10 && |ETC_CLAUDE| == 15;
    assert forall i | 0 <= i < |MountPoints()| :: |MountPoints()[i]| <= 15;
    assert ETC_CLAUDE[0] != PYTHON_LINK[0] && ETC_CLAUDE[0] != LIBEXEC[0];
    assert forall i | 0 <= i < |MountPoints()| :: |MountPoints()[i]| > 11 ==> MountPoints()[i] == ETC_CLAUDE;
    assert HelperName(helpers.supervisor)[0] == LIBEXEC[0] && HelperName(helpers.bridge)[0] == LIBEXEC[0];
  }

  lemma SameFirst(a: seq<Text>, b: seq<Text>)
    ensures a != [] && ProperlyAbove(a, b) ==> b != [] && b[0] == a[0]
  {}

  /** No fixed file stands above a fixed name. */
  lemma FixedAreBeside(helpers: Helpers, a: Text, b: Text)
    requires helpers.Based() && helpers.Plain() && FixedFile(helpers, a) && FixedName(helpers, b)
    ensures !ProperlyAbove(Parts(a), Parts(b))
  {
    FixedNameParts(helpers, a);
    FixedNameParts(helpers, b);
    SameFirst(Parts(a), Parts(b));
  }

  // ----- how the host's own names lie -----

  /** A name's first part and its number of parts. */
  predicate Lies(name: Text, first: Text, count: nat) {
    Canonical(name) && name != HERE && |Parts(name)| == count > 0 && Parts(name)[0] == first
  }

  lemma LiesUnder(dir: Text, last: Text, name: Text, first: Text, count: nat)
    requires Lies(dir, first, count) && OrdinaryName(last) && name == dir + [SLASH] + last
    ensures Lies(name, first, count + 1)
  {
    ChildName(dir, last);
  }

  lemma LiesAlone(s: string)
    requires Undotted(s)
    ensures Lies(Lit(s), Lit(s), 1)
  {
    OrdinaryLit(s);
  }

  lemma LiesTwo(a: string, b: string, name: string)
    requires Undotted(a) && Undotted(b) && name == a + "/" + b
    ensures Lies(Lit(name), Lit(a), 2)
  {
    TwoLits(a, b, name);
  }

  lemma LiesThree(a: string, b: string, c: string, name: string)
    requires Undotted(a) && Undotted(b) && Undotted(c) && name == a + "/" + b + "/" + c
    ensures Lies(Lit(name), Lit(a), 3)
  {
    ThreeLits(a, b, c, name);
  }

  lemma PythonLies()
    ensures Lies(PYTHON, Lit("usr"), 3)
  {
    LiesThree("usr", "bin", "python3.12", "usr/bin/python3.12");
  }

  lemma GitLies()
    ensures Lies(GIT_BINARY, Lit("usr"), 3)
  {
    LiesThree("usr", "bin", "git", "usr/bin/git");
  }

  lemma CertsLie()
    ensures Lies(CERTS, Lit("etc"), 3)
  {
    LiesThree("etc", "ssl", "certs", "etc/ssl/certs");
  }

  lemma CertificatesName()
    ensures OrdinaryName(Lit("ca-certificates.crt"))
  {
    OrdinaryLit("ca-certificates.crt");
  }

  lemma TrustBundleLies()
    ensures Lies(TRUST_BUNDLE, Lit("etc"), 4)
  {
    CertsLie();
    CertificatesName();
    LiesUnder(CERTS, Lit("ca-certificates.crt"), TRUST_BUNDLE, Lit("etc"), 3);
  }

  lemma ShellLies()
    ensures Lies(SHELL, Lit("bin"), 2)
  {
    LiesTwo("bin", "sh", "bin/sh");
  }

  lemma LoaderName()
    ensures OrdinaryName(Lit("ld-linux-x86-64.so.2"))
  {
    OrdinaryLit("ld-linux-x86-64.so.2");
  }

  lemma LoaderLies()
    ensures Lies(LOADER, Lit("lib64"), 2)
  {
    LiesAlone("lib64");
    LoaderName();
    LiesUnder(Lit("lib64"), Lit("ld-linux-x86-64.so.2"), LOADER, Lit("lib64"), 1);
  }

  function HostFirst(i: nat): Text
    requires i < 5
  {
    [Lit("usr"), Lit("usr"), Lit("etc"), Lit("bin"), Lit("lib64")][i]
  }

  function HostCount(i: nat): nat
    requires i < 5
  {
    [3, 3, 4, 2, 2][i]
  }

  lemma HostNameLies(i: nat)
    requires i < |HostNames()|
    ensures Lies(HostNames()[i], HostFirst(i), HostCount(i))
  {
    if i == 0 { PythonLies(); }
    else if i == 1 { GitLies(); }
    else if i == 2 { TrustBundleLies(); }
    else if i == 3 { ShellLies(); }
    else { LoaderLies(); }
  }

  lemma FirstsDiffer(i: nat, j: nat)
    requires i < 5 && j < 5 && HostCount(i) < HostCount(j)
    ensures HostFirst(i) != HostFirst(j)
  {
    assert Lit("usr")[0] == 117 && Lit("etc")[0] == 101 && Lit("bin")[0] == 98 && Lit("lib64")[0] == 108;
  }

  lemma LyingBeside(a: Text, b: Text, i: nat, j: nat)
    requires i < 5 && j < 5 && Lies(a, HostFirst(i), HostCount(i)) && Lies(b, HostFirst(j), HostCount(j))
    ensures !ProperlyAbove(Parts(a), Parts(b))
  {
    SameFirst(Parts(a), Parts(b));
    if HostCount(i) < HostCount(j) { FirstsDiffer(i, j); }
  }

  /** None of the host names lies under another. */
  lemma HostNamesAreBeside(i: nat, j: nat)
    requires i < |HostNames()| && j < |HostNames()|
    ensures !ProperlyAbove(Parts(HostNames()[i]), Parts(HostNames()[j]))
  {
    HostNameLies(i);
    HostNameLies(j);
    LyingBeside(HostNames()[i], HostNames()[j], i, j);
  }
}
