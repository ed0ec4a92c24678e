/** The plan of a pull request told from path names: which kind of path brings
    which tasks. */
module CiKinds {
  import opened Options
  import opened CiPaths
  import opened CiPlanner
  import opened CiPlans
  import opened CiCoverage

  // ---------- Kinds of paths ----------

  datatype Kind = Doc | Config | Workflow | Harness | Python | Web | Rust | Install | Ordinary

  /** The kind of a path: the first in this order whose test it passes. */
  predicate OfKind(p: string, kind: Kind) {
    match kind
    case Doc => IsDocOrChangelogPath(p)
    case Config => IsFullWorkspacePath(p) && !IsDocOrChangelogPath(p)
    case Workflow => IsWorkflowPath(p) && !IsDocOrChangelogPath(p) && !IsFullWorkspacePath(p)
    case Harness => IsCiHarnessScriptPath(p) && Unclaimed(p) && !IsWorkflowPath(p)
    case Python => IsPythonPath(p) && Unclaimed(p) && !IsWorkflowPath(p) && !IsCiHarnessScriptPath(p)
    case Web => IsWebPath(p) && PastCi(p) && !IsPythonPath(p)
    case Rust => IsRustPath(p) && PastCi(p) && !IsPythonPath(p) && !IsWebPath(p)
    case Install => IsInstallPath(p) && PastCi(p) && !IsPythonPath(p) && !IsWebPath(p) && !IsRustPath(p)
    case Ordinary => PastCi(p) && !IsPythonPath(p) && !IsWebPath(p) && !IsRustPath(p) && !IsInstallPath(p)
  }

  /** Neither a document nor a workspace configuration. */
  predicate Unclaimed(p: string) {
    !IsDocOrChangelogPath(p) && !IsFullWorkspacePath(p)
  }

  predicate PastCi(p: string) {
    Unclaimed(p) && !IsWorkflowPath(p) && !IsCiHarnessScriptPath(p)
  }

  /** Some changed path is of the kind. */
  ghost predicate AnyOf(paths: seq<string>, kind: Kind) {
    exists p :: p in paths && OfKind(p, kind)
  }

  /** A test is the one to run for an ordinary path: the path itself, or a test
      named after it in its package or, outside packages, in its directory. */
  predicate Tests(packages: seq<Package>, t: string, p: string) {
    if IsTestFilePath(p) then t == p else IsMappedTest(t, p, packages)
  }

  ghost predicate Untested(packages: seq<Package>, testFiles: seq<string>, p: string) {
    forall t :: t in testFiles ==> !Tests(packages, t, p)
  }

  predicate Holds(package: Package, p: string) {
    p == package.dir || StartsWith(p, package.dir + "/")
  }

  /** The package is the first whose directory holds the path. */
  ghost predicate Owns(packages: seq<Package>, package: Package, p: string) {
    exists i :: 0 <= i < |packages| && packages[i] == package && Holds(package, p) &&
      forall j :: 0 <= j < i ==> !Holds(packages[j], p)
  }

  /** The whole workspace is run: for a configuration other than package.json,
      or for package.json beside a path that is no part of a release. */
  ghost predicate RunsAll(paths: seq<string>) {
    exists p :: p in paths && OfKind(p, Config) &&
      (p != "package.json" || exists q :: q in paths && !IsDocOrChangelogPath(q) && !IsReleaseHarnessPath(q))
  }

  /** What a key asks of the kind of a path that brings it. */
  predicate KindBrings(p: string, k: Key) {
    match k
    case YamlParse => OfKind(p, Workflow)
    case CiSelftest => OfKind(p, Workflow) || OfKind(p, Harness)
    case CiDryRun => OfKind(p, Workflow) || OfKind(p, Harness)
    case PythonLint => OfKind(p, Python)
    case PythonTest => OfKind(p, Python)
    case WebTypecheck => OfKind(p, Kind.Web)
    case WebBuild => OfKind(p, Kind.Web)
    case RustCheck => OfKind(p, Rust)
    case RustTest => OfKind(p, Rust)
    case InstallMethods => OfKind(p, Install)
    case _ => false
  }

  /** What a key asks of a path without tests and of the package it lies in. */
  predicate PackageBrings(package: Package, p: string, k: Key) {
    match k
    case CheckPackage(name) => name == package.name && HasScript(package, "check")
    case CliSmoke => IsCodingAgentRuntimePath(p)
    case WrapperVersion => IsUnscopedWrapperPath(p)
    case ReleaseContract => IsReleasePublishPath(p)
    case ReleaseDryRun => IsReleasePublishPath(p)
    case _ => false
  }

  ghost predicate OwnerBrings(packages: seq<Package>, p: string, k: Key) {
    exists package :: package in packages && Owns(packages, package, p) && PackageBrings(package, p, k)
  }

  /** What a key asks of an ordinary path that brings it: to be tested by it; to
      have no test and lie in its package; to be code outside the packages. */
  ghost predicate OrdinaryBrings(packages: seq<Package>, testFiles: seq<string>, p: string, k: Key) {
    if k.TestFile? then k.file in testFiles && Tests(packages, k.file, p)
    else if k.RootCheck? then Untested(packages, testFiles, p) && Unowned(packages, p) && IsCodeIshPath(p)
    else Untested(packages, testFiles, p) && OwnerBrings(packages, p, k)
  }

  ghost predicate Unowned(packages: seq<Package>, p: string) {
    forall i :: 0 <= i < |packages| ==> !Holds(packages[i], p)
  }

  ghost predicate Brings(packages: seq<Package>, testFiles: seq<string>, p: string, k: Key) {
    KindBrings(p, k) || (OfKind(p, Ordinary) && OrdinaryBrings(packages, testFiles, p, k))
  }

  /** Some changed path brings the key. */
  ghost predicate Brought(packages: seq<Package>, testFiles: seq<string>, paths: seq<string>, k: Key) {
    exists p :: p in paths && Brings(packages, testFiles, p, k)
  }

  // ---------- What one path asks for ----------

  lemma {:induction false} MappedAre(p: string, packages: seq<Package>, testFiles: seq<string>, t: string)
    ensures t in FilterMapped(p, packages, testFiles) <==> t in testFiles && IsMappedTest(t, p, packages)
  {
    if testFiles != [] {
      MappedAre(p, packages, testFiles[1..], t);
      assert testFiles == [testFiles[0]] + testFiles[1..];
    }
  }

  lemma TestsAre(p: string, packages: seq<Package>, testFiles: seq<string>)
    ensures forall t :: t in MappedTestsFor(p, packages, testFiles) <==> t in testFiles && Tests(packages, t, p)
    ensures MappedTestsFor(p, packages, testFiles) == [] <==> Untested(packages, testFiles, p)
  {
    var tests := MappedTestsFor(p, packages, testFiles);
    forall t ensures t in tests <==> t in testFiles && Tests(packages, t, p) {
      MappedAre(p, packages, testFiles, t);
    }
    if tests != [] {
      assert tests[0] in tests;
    }
  }

  lemma {:induction false} OwnerIsFirst(p: string, packages: seq<Package>)
    ensures OwningPackage(p, packages).None? <==> Unowned(packages, p)
    ensures forall package :: OwningPackage(p, packages) == Some(package) <==> Owns(packages, package, p)
  {
    if packages != [] && !Holds(packages[0], p) {
      OwnerIsFirst(p, packages[1..]);
      assert forall i :: 1 <= i < |packages| ==> packages[i] == packages[1..][i - 1];
      forall package ensures Owns(packages[1..], package, p) <==> Owns(packages, package, p) {
        OwnsLater(p, packages, package);
      }
    } else if packages != [] {
      forall package ensures packages[0] == package <==> Owns(packages, package, p) {
      }
    }
  }

  lemma OwnsLater(p: string, packages: seq<Package>, package: Package)
    requires packages != [] && !Holds(packages[0], p)
    ensures Owns(packages[1..], package, p) <==> Owns(packages, package, p)
  {
    var rest := packages[1..];
    if Owns(rest, package, p) {
      var i :| 0 <= i < |rest| && rest[i] == package && Holds(package, p) && forall j :: 0 <= j < i ==> !Holds(rest[j], p);
      assert packages[i + 1] == package;
      forall j | 0 <= j < i + 1 ensures !Holds(packages[j], p) {
        assert j > 0 ==> packages[j] == rest[j - 1];
      }
    }
    if Owns(packages, package, p) {
      var i :| 0 <= i < |packages| && packages[i] == package && Holds(package, p) && forall j :: 0 <= j < i ==> !Holds(packages[j], p);
      assert rest[i - 1] == package;
    }
  }

  // ---------- The same on facts ----------

  predicate KindIs(f: PathFacts, kind: Kind) {
    var ci := f.workflow || f.ciHarness;
    match kind
    case Doc => f.doc
    case Config => !f.doc && f.full
    case Workflow => !f.doc && !f.full && f.workflow
    case Harness => !f.doc && !f.full && !f.workflow && f.ciHarness
    case Python => !f.doc && !f.full && !ci && f.python
    case Web => !f.doc && !f.full && !ci && !f.python && f.web
    case Rust => !f.doc && !f.full && !ci && !f.python && !f.web && f.rust
    case Install => !f.doc && !f.full && !ci && !f.python && !f.web && !f.rust && f.install
    case Ordinary => !f.doc && !f.full && !ci && !f.python && !f.web && !f.rust && !f.install
  }

  lemma KindFacts(p: string, kind: Kind)
    ensures OfKind(p, kind) <==> KindIs(FactsOf(p), kind)
  {
    match kind
    case Doc =>
    case Config =>
    case Workflow =>
    case Harness =>
    case Python =>
    case Web =>
    case Rust =>
    case Install =>
    case Ordinary =>
  }

  predicate KindKey(f: PathFacts, k: Key) {
    match k
    case YamlParse => KindIs(f, Workflow)
    case CiSelftest => KindIs(f, Workflow) || KindIs(f, Harness)
    case CiDryRun => KindIs(f, Workflow) || KindIs(f, Harness)
    case PythonLint => KindIs(f, Python)
    case PythonTest => KindIs(f, Python)
    case WebTypecheck => KindIs(f, Kind.Web)
    case WebBuild => KindIs(f, Kind.Web)
    case RustCheck => KindIs(f, Rust)
    case RustTest => KindIs(f, Rust)
    case InstallMethods => KindIs(f, Install)
    case _ => false
  }

  /** The first kinds, whose tasks are noted. */
  lemma CiAsks(ws: Workspace, p: string, k: Key)
    requires var f := ws.facts(p); !f.doc && (f.full || f.workflow || f.ciHarness)
    ensures k in PathKeys(ws, p) <==> KindKey(ws.facts(p), k)
  {
  }

  /** ... and those of a language or the install scripts. */
  lemma LanguageAsks(ws: Workspace, p: string, k: Key)
    requires var f := ws.facts(p); !f.doc && !f.full && !f.workflow && !f.ciHarness && (f.python || f.web || f.rust || f.install)
    ensures k in PathKeys(ws, p) <==> KindKey(ws.facts(p), k)
  {
  }

  lemma SpecialAsks(ws: Workspace, p: string, k: Key)
    requires !ws.facts(p).doc && !KindIs(ws.facts(p), Ordinary)
    ensures k in PathKeys(ws, p) <==> KindKey(ws.facts(p), k)
  {
    var f := ws.facts(p);
    if f.full || f.workflow || f.ciHarness {
      CiAsks(ws, p, k);
    } else {
      LanguageAsks(ws, p, k);
    }
  }

  predicate OwnedKey(f: PathFacts, owner: Package, k: Key) {
    match k
    case CheckPackage(name) => name == owner.name && HasScript(owner, "check")
    case CliSmoke => f.runtime
    case WrapperVersion => f.wrapper
    case ReleaseContract => f.publish
    case ReleaseDryRun => f.publish
    case _ => false
  }

  lemma OwnedAsks(f: PathFacts, owner: Package, k: Key)
    ensures k in OwnedKeys(f, owner) <==> OwnedKey(f, owner, k)
  {
  }

  lemma KindAsks(p: string, k: Key)
    ensures KindBrings(p, k) <==> KindKey(FactsOf(p), k)
  {
    KindFacts(p, Workflow);
    KindFacts(p, Harness);
    KindFacts(p, Python);
    KindFacts(p, Kind.Web);
    KindFacts(p, Rust);
    KindFacts(p, Install);
  }

  lemma RuntimeFact(p: string)
    ensures FactsOf(p).runtime == IsCodingAgentRuntimePath(p)
  {
  }

  lemma ReleaseFacts(p: string)
    ensures FactsOf(p).wrapper == IsUnscopedWrapperPath(p) && FactsOf(p).publish == IsReleasePublishPath(p)
  {
  }

  lemma PackageAsks(package: Package, p: string, k: Key)
    ensures PackageBrings(package, p, k) <==> OwnedKey(FactsOf(p), package, k)
  {
    match k
    case CliSmoke => RuntimeFact(p);
    case WrapperVersion => ReleaseFacts(p);
    case ReleaseContract => ReleaseFacts(p);
    case ReleaseDryRun => ReleaseFacts(p);
    case _ =>
  }

  lemma OwnerAsks(packages: seq<Package>, p: string, k: Key)
    ensures OwnerBrings(packages, p, k) <==>
      OwningPackage(p, packages).Some? && OwnedKey(FactsOf(p), OwningPackage(p, packages).value, k)
  {
    OwnerIsFirst(p, packages);
    OwnerIsMember(p, packages);
    forall package ensures PackageBrings(package, p, k) <==> OwnedKey(FactsOf(p), package, k) {
      PackageAsks(package, p, k);
    }
  }

  /** What a path of no special kind asks for, over the facts about it. */
  lemma OrdinaryKeys(ws: Workspace, p: string, k: Key)
    ensures k in PackageKeys(ws, p) <==>
      var tests, owner, f := ws.mapped(p), ws.owner(p), ws.facts(p);
      if k.TestFile? then k.file in tests
      else if k.RootCheck? then tests == [] && owner.None? && f.codeIsh
      else tests == [] && owner.Some? && OwnedKey(f, owner.value, k)
  {
    var tests, owner, f := ws.mapped(p), ws.owner(p), ws.facts(p);
    if tests == [] && owner.Some? {
      OwnedAsks(f, owner.value, k);
    }
  }

  lemma CodeIsh(p: string)
    ensures FactsOf(p).codeIsh == IsCodeIshPath(p) && FactsOf(p).doc == IsDocOrChangelogPath(p)
  {
  }

  lemma TestAsks(ws: Workspace, packages: seq<Package>, testFiles: seq<string>, p: string, t: string)
    requires ws == WorkspaceOf(packages, testFiles)
    ensures TestFile(t) in PackageKeys(ws, p) <==> t in testFiles && Tests(packages, t, p)
  {
    OrdinaryKeys(ws, p, TestFile(t));
    TestsAre(p, packages, testFiles);
  }

  lemma RootAsks(ws: Workspace, packages: seq<Package>, testFiles: seq<string>, p: string)
    requires ws == WorkspaceOf(packages, testFiles)
    ensures RootCheck in PackageKeys(ws, p) <==>
      Untested(packages, testFiles, p) && Unowned(packages, p) && ws.facts(p).codeIsh
  {
    OrdinaryKeys(ws, p, RootCheck);
    TestsAre(p, packages, testFiles);
    OwnerIsFirst(p, packages);
  }

  lemma OwnAsks(ws: Workspace, packages: seq<Package>, testFiles: seq<string>, p: string, k: Key)
    requires ws == WorkspaceOf(packages, testFiles) && !k.TestFile? && !k.RootCheck?
    ensures k in PackageKeys(ws, p) <==> Untested(packages, testFiles, p) && OwnerBrings(packages, p, k)
  {
    OrdinaryKeys(ws, p, k);
    TestsAre(p, packages, testFiles);
    OwnerAsks(packages, p, k);
  }

  lemma OrdinaryAsks(ws: Workspace, packages: seq<Package>, testFiles: seq<string>, p: string, k: Key)
    requires ws == WorkspaceOf(packages, testFiles)
    ensures k in PackageKeys(ws, p) <==> OrdinaryBrings(packages, testFiles, p, k)
  {
    if k.TestFile? {
      TestAsks(ws, packages, testFiles, p, k.file);
    } else if k.RootCheck? {
      RootAsks(ws, packages, testFiles, p);
      CodeIsh(p);
    } else {
      OwnAsks(ws, packages, testFiles, p, k);
    }
  }

  lemma OrdinaryPath(ws: Workspace, p: string, k: Key)
    requires KindIs(ws.facts(p), Ordinary)
    ensures PathKeys(ws, p) == PackageKeys(ws, p) && !KindKey(ws.facts(p), k)
  {
  }

  /** The keys of a path, read the other way round. */
  lemma PathAsks(ws: Workspace, packages: seq<Package>, testFiles: seq<string>, p: string, k: Key)
    requires ws == WorkspaceOf(packages, testFiles) && !ws.facts(p).doc
    ensures k in PathKeys(ws, p) <==> Brings(packages, testFiles, p, k)
  {
    KindAsks(p, k);
    KindFacts(p, Ordinary);
    if KindIs(ws.facts(p), Ordinary) {
      OrdinaryPath(ws, p, k);
      OrdinaryAsks(ws, packages, testFiles, p, k);
    } else {
      SpecialAsks(ws, p, k);
    }
  }

  // ---------- The plan ----------

  lemma ConfigFacts(p: string)
    ensures FactsOf(p).packageJson == (p == "package.json") && FactsOf(p).releaseHarness == IsReleaseHarnessPath(p)
  {
  }

  /** A full run, over facts. */
  lemma FullRun(ws: Workspace, paths: seq<string>)
    requires LawfulWorkspace(ws)
    ensures FullWorkspace(ws, Relevant(ws, paths)) <==>
      exists p :: p in paths && KindIs(ws.facts(p), Config) &&
        (!ws.facts(p).packageJson || exists q :: q in paths && !ws.facts(q).doc && !ws.facts(q).releaseHarness)
  {
    var relevant := Relevant(ws, paths);
    forall p ensures p in relevant <==> p in paths && !ws.facts(p).doc {
      RelevantAre(ws, paths, p);
    }
    if p :| p in paths && KindIs(ws.facts(p), Config) && !ws.facts(p).packageJson {
      assert p in relevant && !ws.facts(p).releaseHarness;
    }
  }

  lemma RunsAllExactly(packages: seq<Package>, testFiles: seq<string>, paths: seq<string>)
    requires LawfulWorkspace(WorkspaceOf(packages, testFiles))
    ensures
      var ws := WorkspaceOf(packages, testFiles);
      FullWorkspace(ws, Relevant(ws, paths)) <==> RunsAll(paths)
  {
    var ws := WorkspaceOf(packages, testFiles);
    FullRun(ws, paths);
    forall p ensures OfKind(p, Config) <==> KindIs(ws.facts(p), Config) {
      KindFacts(p, Config);
    }
    forall p ensures ws.facts(p).packageJson == (p == "package.json") && ws.facts(p).releaseHarness == IsReleaseHarnessPath(p) {
      ConfigFacts(p);
    }
    forall p ensures ws.facts(p).doc == IsDocOrChangelogPath(p) {
      CodeIsh(p);
    }
  }

  lemma BroughtExactly(packages: seq<Package>, testFiles: seq<string>, paths: seq<string>, k: Key)
    ensures
      var ws := WorkspaceOf(packages, testFiles);
      (exists p :: p in Relevant(ws, paths) && k in PathKeys(ws, p)) <==> Brought(packages, testFiles, paths, k)
  {
    var ws := WorkspaceOf(packages, testFiles);
    forall p ensures p in Relevant(ws, paths) && k in PathKeys(ws, p) <==> p in paths && Brings(packages, testFiles, p, k) {
      RelevantAre(ws, paths, p);
      if ws.facts(p).doc {
        DocBrings(packages, testFiles, p, k);
      } else {
        PathAsks(ws, packages, testFiles, p, k);
      }
    }
  }

  lemma DocBrings(packages: seq<Package>, testFiles: seq<string>, p: string, k: Key)
    requires FactsOf(p).doc
    ensures !Brings(packages, testFiles, p, k)
  {
    KindAsks(p, k);
    KindFacts(p, Ordinary);
    DocKey(FactsOf(p), k);
  }

  lemma DocKey(f: PathFacts, k: Key)
    requires f.doc
    ensures !KindKey(f, k) && !KindIs(f, Ordinary)
  {
  }

  /** Every key of the plan but the native build: it is brought by a path, or
      belongs to a full run. The native build comes with what loads the addon. */
  ghost predicate PlanIs(packages: seq<Package>, testFiles: seq<string>, paths: seq<string>, keys: set<Key>) {
    && (forall k :: k in keys && k != NativeLinux <==>
          (RunsAll(paths) && (k == RootCheck || k == RootTest)) || Brought(packages, testFiles, paths, k))
    && (NativeLinux in keys <==>
          || RunsAll(paths) || RootCheck in keys || CliSmoke in keys || WrapperVersion in keys
          || exists t :: TestFile(t) in keys)
  }

  predicate OfKindsOnly(k: Key) {
    match k
    case YamlParse => true
    case CiSelftest => true
    case CiDryRun => true
    case PythonLint => true
    case PythonTest => true
    case WebTypecheck => true
    case WebBuild => true
    case RustCheck => true
    case RustTest => true
    case InstallMethods => true
    case _ => false
  }

  lemma KindBringsOnly(p: string, k: Key)
    requires KindBrings(p, k)
    ensures OfKindsOnly(k)
  {
  }

  /** Keys that only ordinary paths bring. */
  predicate OfOrdinaryOnly(k: Key) {
    || k.TestFile? || k.RootCheck? || k.CheckPackage?
    || k == CliSmoke || k == WrapperVersion || k == ReleaseContract || k == ReleaseDryRun
  }

  lemma OrdinaryBringsOnly(packages: seq<Package>, testFiles: seq<string>, p: string, k: Key)
    requires OrdinaryBrings(packages, testFiles, p, k)
    ensures OfOrdinaryOnly(k)
  {
    if !k.TestFile? && !k.RootCheck? {
      OwnerBringsOnly(packages, p, k);
    }
  }

  lemma OwnerBringsOnly(packages: seq<Package>, p: string, k: Key)
    requires OwnerBrings(packages, p, k)
    ensures OfOrdinaryOnly(k)
  {
  }

  lemma BringsOnly(packages: seq<Package>, testFiles: seq<string>, p: string, k: Key)
    requires Brings(packages, testFiles, p, k)
    ensures OfKindsOnly(k) || OfOrdinaryOnly(k)
  {
    if KindBrings(p, k) {
      KindBringsOnly(p, k);
    } else {
      OrdinaryBringsOnly(packages, testFiles, p, k);
    }
  }

  lemma NativeIsNotBrought(k: Key)
    requires OfKindsOnly(k) || OfOrdinaryOnly(k)
    ensures !IsNativeBuild(k)
    ensures NeedsNative(k) ==> k == RootCheck || k == CliSmoke || k == WrapperVersion || k.TestFile?
  {
  }

  lemma NoNativeBrought(packages: seq<Package>, testFiles: seq<string>, paths: seq<string>, k: Key)
    requires Brought(packages, testFiles, paths, k)
    ensures !IsNativeBuild(k)
    ensures NeedsNative(k) ==> k == RootCheck || k == CliSmoke || k == WrapperVersion || k.TestFile?
  {
    var p :| p in paths && Brings(packages, testFiles, p, k);
    BringsOnly(packages, testFiles, p, k);
    NativeIsNotBrought(k);
  }

  lemma NativeExactly(ws: Workspace, paths: seq<string>, keys: set<Key>, all: bool, base: Key -> bool)
    requires forall k :: k in keys <==> TargetedKey(ws, paths, k)
    requires forall k :: BaseKey(ws, paths, k) <==> (all && k in FULL_KEYS) || base(k)
    requires forall k :: base(k) ==> !IsNativeBuild(k)
    requires forall k :: base(k) && NeedsNative(k) ==> k == RootCheck || k == CliSmoke || k == WrapperVersion || k.TestFile?
    ensures forall k :: k in keys && k != NativeLinux <==> (all && (k == RootCheck || k == RootTest)) || base(k)
    ensures NativeLinux in keys <==>
      all || RootCheck in keys || CliSmoke in keys || WrapperVersion in keys || exists t :: TestFile(t) in keys
  {
  }

  lemma PlanIsExactly(packages: seq<Package>, testFiles: seq<string>, paths: seq<string>, keys: set<Key>)
    requires LawfulWorkspace(WorkspaceOf(packages, testFiles))
    requires forall k :: k in keys <==> TargetedKey(WorkspaceOf(packages, testFiles), paths, k)
    ensures PlanIs(packages, testFiles, paths, keys)
  {
    var ws := WorkspaceOf(packages, testFiles);
    RunsAllExactly(packages, testFiles, paths);
    forall k ensures BaseKey(ws, paths, k) <==> (RunsAll(paths) && k in FULL_KEYS) || Brought(packages, testFiles, paths, k) {
      BroughtExactly(packages, testFiles, paths, k);
    }
    forall k | Brought(packages, testFiles, paths, k)
      ensures !IsNativeBuild(k)
      ensures NeedsNative(k) ==> k == RootCheck || k == CliSmoke || k == WrapperVersion || k.TestFile?
    {
      NoNativeBrought(packages, testFiles, paths, k);
    }
    NativeExactly(ws, paths, keys, RunsAll(paths), k => Brought(packages, testFiles, paths, k));
  }

  lemma OnlyKindBrings(packages: seq<Package>, testFiles: seq<string>, p: string, k: Key)
    requires OfKindsOnly(k)
    ensures Brings(packages, testFiles, p, k) <==> KindBrings(p, k)
  {
    assert !OwnerBrings(packages, p, k);
  }

  lemma KindPlanned(packages: seq<Package>, testFiles: seq<string>, paths: seq<string>, keys: set<Key>, k: Key)
    requires PlanIs(packages, testFiles, paths, keys) && OfKindsOnly(k)
    ensures k in keys <==> exists p :: p in paths && KindBrings(p, k)
  {
    forall p ensures Brings(packages, testFiles, p, k) <==> KindBrings(p, k) {
      OnlyKindBrings(packages, testFiles, p, k);
    }
  }

  lemma PairPlanned(packages: seq<Package>, testFiles: seq<string>, paths: seq<string>, keys: set<Key>, k: Key, kind: Kind)
    requires PlanIs(packages, testFiles, paths, keys) && OfKindsOnly(k)
    requires forall p :: KindBrings(p, k) <==> OfKind(p, kind)
    ensures k in keys <==> AnyOf(paths, kind)
  {
    KindPlanned(packages, testFiles, paths, keys, k);
  }

  /** Both tasks of a kind are planned exactly when a path of the kind changed. */
  lemma LanguagesPlanned(packages: seq<Package>, testFiles: seq<string>, paths: seq<string>, keys: set<Key>)
    requires PlanIs(packages, testFiles, paths, keys)
    ensures PythonLint in keys <==> AnyOf(paths, Python)
    ensures PythonTest in keys <==> AnyOf(paths, Python)
    ensures WebTypecheck in keys <==> AnyOf(paths, Kind.Web)
    ensures WebBuild in keys <==> AnyOf(paths, Kind.Web)
    ensures RustCheck in keys <==> AnyOf(paths, Rust)
    ensures RustTest in keys <==> AnyOf(paths, Rust)
    ensures InstallMethods in keys <==> AnyOf(paths, Install)
  {
    PairPlanned(packages, testFiles, paths, keys, PythonLint, Python);
    PairPlanned(packages, testFiles, paths, keys, PythonTest, Python);
    PairPlanned(packages, testFiles, paths, keys, WebTypecheck, Kind.Web);
    PairPlanned(packages, testFiles, paths, keys, WebBuild, Kind.Web);
    PairPlanned(packages, testFiles, paths, keys, RustCheck, Rust);
    PairPlanned(packages, testFiles, paths, keys, RustTest, Rust);
    PairPlanned(packages, testFiles, paths, keys, InstallMethods, Install);
  }

  lemma HarnessPlanned(packages: seq<Package>, testFiles: seq<string>, paths: seq<string>, keys: set<Key>, k: Key)
    requires PlanIs(packages, testFiles, paths, keys) && OfKindsOnly(k)
    requires forall p :: KindBrings(p, k) <==> OfKind(p, Workflow) || OfKind(p, Harness)
    ensures k in keys <==> AnyOf(paths, Workflow) || AnyOf(paths, Harness)
  {
    KindPlanned(packages, testFiles, paths, keys, k);
  }

  /** The checks of the workflows and of the planner itself. */
  lemma CiPlanned(packages: seq<Package>, testFiles: seq<string>, paths: seq<string>, keys: set<Key>)
    requires PlanIs(packages, testFiles, paths, keys)
    ensures YamlParse in keys <==> AnyOf(paths, Workflow)
    ensures CiSelftest in keys <==> AnyOf(paths, Workflow) || AnyOf(paths, Harness)
    ensures CiDryRun in keys <==> AnyOf(paths, Workflow) || AnyOf(paths, Harness)
  {
    PairPlanned(packages, testFiles, paths, keys, YamlParse, Workflow);
    HarnessPlanned(packages, testFiles, paths, keys, CiSelftest);
    HarnessPlanned(packages, testFiles, paths, keys, CiDryRun);
  }

  /** A test is planned exactly when it is the one to run for an ordinary path. */
  lemma TestPlanned(packages: seq<Package>, testFiles: seq<string>, paths: seq<string>, keys: set<Key>, t: string)
    requires PlanIs(packages, testFiles, paths, keys)
    ensures TestFile(t) in keys <==> t in testFiles && exists p :: p in paths && OfKind(p, Ordinary) && Tests(packages, t, p)
  {
    forall p ensures Brings(packages, testFiles, p, TestFile(t)) <==> OfKind(p, Ordinary) && t in testFiles && Tests(packages, t, p) {
      TestBrings(packages, testFiles, p, t);
    }
  }

  lemma TestBrings(packages: seq<Package>, testFiles: seq<string>, p: string, t: string)
    ensures Brings(packages, testFiles, p, TestFile(t)) <==> OfKind(p, Ordinary) && t in testFiles && Tests(packages, t, p)
  {
  }

  /** The root check is planned for a full run and for code outside the packages
      that no test is named after; the root tests for a full run alone. */
  lemma RootPlanned(packages: seq<Package>, testFiles: seq<string>, paths: seq<string>, keys: set<Key>)
    requires PlanIs(packages, testFiles, paths, keys)
    ensures RootTest in keys <==> RunsAll(paths)
    ensures RootCheck in keys <==>
      || RunsAll(paths)
      || exists p :: p in paths && OfKind(p, Ordinary) && IsCodeIshPath(p) && Unowned(packages, p) && Untested(packages, testFiles, p)
  {
  }

  /** A package is checked exactly when it has a check and an ordinary path with
      no test of its own lies in it. */
  lemma PackagePlanned(packages: seq<Package>, testFiles: seq<string>, paths: seq<string>, keys: set<Key>, package: Package)
    requires PlanIs(packages, testFiles, paths, keys) && DistinctNames(packages) && package in packages
    ensures CheckPackage(package.name) in keys <==>
      HasScript(package, "check") &&
      exists p :: p in paths && OfKind(p, Ordinary) && Untested(packages, testFiles, p) && Owns(packages, package, p)
  {
    var k := CheckPackage(package.name);
    forall p ensures OwnerBrings(packages, p, k) <==> HasScript(package, "check") && Owns(packages, package, p) {
      CheckBrings(packages, p, package);
    }
    forall p ensures Brings(packages, testFiles, p, k) <==>
      OfKind(p, Ordinary) && Untested(packages, testFiles, p) && OwnerBrings(packages, p, k) {
      PackageKeyBrings(packages, testFiles, p, k);
    }
  }

  lemma CheckBrings(packages: seq<Package>, p: string, package: Package)
    requires DistinctNames(packages) && package in packages
    ensures OwnerBrings(packages, p, CheckPackage(package.name)) <==> HasScript(package, "check") && Owns(packages, package, p)
  {
    forall other | other in packages && other.name == package.name ensures other == package {
      SameName(packages, other, package);
    }
  }

  lemma PackageKeyBrings(packages: seq<Package>, testFiles: seq<string>, p: string, k: Key)
    requires k.CheckPackage? || k == CliSmoke || k == WrapperVersion || k == ReleaseContract || k == ReleaseDryRun
    ensures Brings(packages, testFiles, p, k) <==>
      OfKind(p, Ordinary) && Untested(packages, testFiles, p) && OwnerBrings(packages, p, k)
  {
  }

  /** The smokes come with ordinary paths of a package that have no test of
      their own and lie in the folders they are about. */
  lemma SmokesPlanned(packages: seq<Package>, testFiles: seq<string>, paths: seq<string>, keys: set<Key>)
    requires PlanIs(packages, testFiles, paths, keys)
    ensures CliSmoke in keys <==> exists p :: p in paths && PackagePath(packages, testFiles, p) && IsCodingAgentRuntimePath(p)
    ensures WrapperVersion in keys <==> exists p :: p in paths && PackagePath(packages, testFiles, p) && IsUnscopedWrapperPath(p)
  {
    SmokePlanned(packages, testFiles, paths, keys, CliSmoke, IsCodingAgentRuntimePath);
    SmokePlanned(packages, testFiles, paths, keys, WrapperVersion, IsUnscopedWrapperPath);
  }

  /** So do both checks of a release. */
  lemma ReleasePlanned(packages: seq<Package>, testFiles: seq<string>, paths: seq<string>, keys: set<Key>, k: Key)
    requires PlanIs(packages, testFiles, paths, keys) && (k == ReleaseContract || k == ReleaseDryRun)
    ensures k in keys <==> exists p :: p in paths && PackagePath(packages, testFiles, p) && IsReleasePublishPath(p)
  {
    SmokePlanned(packages, testFiles, paths, keys, k, IsReleasePublishPath);
  }

  ghost predicate PackagePath(packages: seq<Package>, testFiles: seq<string>, p: string) {
    OfKind(p, Ordinary) && Untested(packages, testFiles, p) && !Unowned(packages, p)
  }

  lemma SmokePlanned(packages: seq<Package>, testFiles: seq<string>, paths: seq<string>, keys: set<Key>, k: Key, about: string -> bool)
    requires PlanIs(packages, testFiles, paths, keys)
    requires k == CliSmoke || k == WrapperVersion || k == ReleaseContract || k == ReleaseDryRun
    requires forall package, p :: PackageBrings(package, p, k) <==> about(p)
    ensures k in keys <==> exists p :: p in paths && PackagePath(packages, testFiles, p) && about(p)
  {
    forall p ensures Brings(packages, testFiles, p, k) <==> PackagePath(packages, testFiles, p) && about(p) {
      SmokeBrings(packages, testFiles, p, k, about);
    }
  }

  lemma SmokeBrings(packages: seq<Package>, testFiles: seq<string>, p: string, k: Key, about: string -> bool)
    requires k == CliSmoke || k == WrapperVersion || k == ReleaseContract || k == ReleaseDryRun
    requires forall package, p :: PackageBrings(package, p, k) <==> about(p)
    ensures Brings(packages, testFiles, p, k) <==> PackagePath(packages, testFiles, p) && about(p)
  {
    PackageKeyBrings(packages, testFiles, p, k);
    OwnerIsFirst(p, packages);
    OwnerIsMember(p, packages);
  }

  // ---------- Folders ----------

  lemma CratesAreNoPython(p: string)
    requires p != "" && p[0] == 'c'
    ensures !IsPythonPath(p) && !IsWebPath(p)
  {
    NotPrefix(p, "python/robogjc/");
    NotPrefix(p, "python/robogjc/web/");
  }

  lemma CratesAreNoCi(p: string)
    requires p != "" && p[0] == 'c'
    ensures !IsFullWorkspacePath(p) && !IsWorkflowPath(p) && !IsCiHarnessScriptPath(p)
  {
    NotPrefix(p, ".github/workflows/");
  }

  lemma CratesAreRust(p: string)
    requires StartsWith(p, "crates/") && !IsDocOrChangelogPath(p)
    ensures OfKind(p, Rust)
  {
    assert p[0] == 'c';
    CratesAreNoPython(p);
    CratesAreNoCi(p);
  }

  lemma WorkflowFolder(p: string)
    requires StartsWith(p, ".github/workflows/") && !IsDocOrChangelogPath(p)
    ensures OfKind(p, Workflow)
  {
    assert p[0] == '.';
  }

  lemma PythonIsNoConfig(p: string)
    requires StartsWith(p, "python/robogjc/")
    ensures !IsFullWorkspacePath(p)
  {
    assert p[0] == 'p' && p[1] == 'y';
  }

  lemma PythonIsNoCi(p: string)
    requires StartsWith(p, "python/robogjc/")
    ensures !IsWorkflowPath(p) && !IsCiHarnessScriptPath(p)
  {
    assert p[0] == 'p';
    NotPrefix(p, ".github/workflows/");
  }

  lemma PythonFolder(p: string)
    requires StartsWith(p, "python/robogjc/") && !StartsWith(p, "python/robogjc/web/") && !StartsWith(p, "python/robogjc/assets/")
    requires !IsDocOrChangelogPath(p)
    ensures OfKind(p, Python)
  {
    PythonIsNoConfig(p);
    PythonIsNoCi(p);
  }

  lemma WebFolder(p: string)
    requires StartsWith(p, "python/robogjc/web/") && !IsDocOrChangelogPath(p)
    ensures OfKind(p, Kind.Web)
  {
    assert p[..15] == "python/robogjc/web/"[..15] == "python/robogjc/";
    PythonIsNoConfig(p);
    PythonIsNoCi(p);
  }

  // ---------- Pushes ----------

  ghost predicate Changed(paths: seq<string>, about: string -> bool) {
    exists p :: p in paths && about(p)
  }

  lemma SomePathIs(ws: Workspace, paths: seq<string>, f: PathFacts -> bool, about: string -> bool)
    requires forall p :: f(ws.facts(p)) == about(p)
    ensures SomePath(ws, paths, f) <==> Changed(paths, about)
  {
  }

  lemma PushOfLanguages(fl: Flags, affected: seq<Package>)
    requires !fl.deepOnly
    ensures PushKey(fl, affected, PythonLint) == PushKey(fl, affected, PythonTest) == fl.python
    ensures PushKey(fl, affected, WebTypecheck) == PushKey(fl, affected, WebBuild) == fl.web
    ensures PushKey(fl, affected, RustCheck) == PushKey(fl, affected, RustTest) == fl.rust
    ensures PushKey(fl, affected, InstallMethods) == fl.install
  {
  }

  lemma PythonFact(p: string)
    ensures FactsOf(p).python == IsPythonPath(p)
  {
  }

  lemma WebFact(p: string)
    ensures FactsOf(p).web == IsWebPath(p)
  {
  }

  lemma RustFact(p: string)
    ensures FactsOf(p).rust == IsRustPath(p)
  {
  }

  lemma InstallFact(p: string)
    ensures FactsOf(p).install == IsInstallPath(p)
  {
  }

  lemma LanguageFlags(ws: Workspace, paths: seq<string>)
    requires ws.facts == FactsOf
    ensures FlagsOf(ws, paths).python == Changed(paths, IsPythonPath) && FlagsOf(ws, paths).web == Changed(paths, IsWebPath)
    ensures FlagsOf(ws, paths).rust == Changed(paths, IsRustPath) && FlagsOf(ws, paths).install == Changed(paths, IsInstallPath)
  {
    forall p ensures FactsOf(p).python == IsPythonPath(p) { PythonFact(p); }
    forall p ensures FactsOf(p).web == IsWebPath(p) { WebFact(p); }
    forall p ensures FactsOf(p).rust == IsRustPath(p) { RustFact(p); }
    forall p ensures FactsOf(p).install == IsInstallPath(p) { InstallFact(p); }
    SomePathIs(ws, paths, (f: PathFacts) => f.python, IsPythonPath);
    SomePathIs(ws, paths, (f: PathFacts) => f.web, IsWebPath);
    SomePathIs(ws, paths, (f: PathFacts) => f.rust, IsRustPath);
    SomePathIs(ws, paths, (f: PathFacts) => f.install, IsInstallPath);
  }

  /** What a push runs for the languages: their tasks exactly when some changed
      path, documents included, is of the language, unless the deep interview
      alone changed. */
  lemma PushLanguages(ws: Workspace, paths: seq<string>, affected: seq<Package>)
    requires ws.facts == FactsOf && !FlagsOf(ws, paths).deepOnly
    ensures
      var fl := FlagsOf(ws, paths);
      && (PushKey(fl, affected, PythonLint) == PushKey(fl, affected, PythonTest) == Changed(paths, IsPythonPath))
      && (PushKey(fl, affected, WebTypecheck) == PushKey(fl, affected, WebBuild) == Changed(paths, IsWebPath))
      && (PushKey(fl, affected, RustCheck) == PushKey(fl, affected, RustTest) == Changed(paths, IsRustPath))
      && (PushKey(fl, affected, InstallMethods) == Changed(paths, IsInstallPath))
  {
    LanguageFlags(ws, paths);
    PushOfLanguages(FlagsOf(ws, paths), affected);
  }

  // ---------- Tests named after a source file ----------

  const EXTENSIONS := [".ts", ".tsx", ".js", ".jsx", ".mts", ".cts"]

  lemma ExtensionEnds(base: string, extension: string)
    ensures EndsWith(base + extension, extension) && (base + extension)[..|base|] == base
    ensures |base + extension| - |extension| == |base|
  {
    assert (base + extension)[|base|..] == extension;
  }

  lemma NoLongExtension(name: string)
    requires |name| >= 3 && name[|name| - 3] == '.'
    ensures !EndsWith(name, ".tsx") && !EndsWith(name, ".jsx") && !EndsWith(name, ".mts") && !EndsWith(name, ".cts")
  {
    if |name| >= 4 {
      assert name[|name| - 4..][1] == '.';
      assert ".tsx"[1] == 't' && ".jsx"[1] == 'j' && ".mts"[1] == 'm' && ".cts"[1] == 'c';
    }
  }

  lemma ShortStem(name: string)
    requires EndsWith(name, ".ts") || EndsWith(name, ".js")
    ensures Stem(name) == name[..|name| - 3]
  {
    assert name[|name| - 3..][0] == '.';
    NoLongExtension(name);
  }

  lemma LongStem(name: string)
    requires EndsWith(name, ".tsx") || EndsWith(name, ".jsx") || EndsWith(name, ".mts") || EndsWith(name, ".cts")
    ensures Stem(name) == name[..|name| - 4]
  {
  }

  lemma StemOf(base: string, extension: string)
    requires extension in EXTENSIONS
    ensures Stem(base + extension) == base
  {
    var name := base + extension;
    ExtensionEnds(base, extension);
    if |extension| == 3 {
      ShortStem(name);
    } else {
      LongStem(name);
    }
  }

  /** The path is `folder/base` with a source extension. */
  ghost predicate SourceNamed(p: string, folder: string, base: string) {
    exists extension :: extension in EXTENSIONS && p == folder + "/" + (base + extension)
  }

  /** The path is `folder/base` with a test ending. */
  predicate TestNamed(t: string, folder: string, base: string) {
    t == folder + "/" + (base + ".test.ts") || t == folder + "/" + (base + ".test.tsx")
  }

  lemma SourceStem(p: string, folder: string, base: string)
    requires '/' !in base && SourceNamed(p, folder, base)
    ensures Stem(Basename(p)) == base
  {
    var extension :| extension in EXTENSIONS && p == folder + "/" + (base + extension);
    assert '/' !in extension;
    FolderAndName(folder, base + extension);
    StemOf(base, extension);
  }

  lemma TestName(t: string, folder: string, base: string)
    requires '/' !in base && TestNamed(t, folder, base)
    ensures Basename(t) == base + ".test.ts" || Basename(t) == base + ".test.tsx"
  {
    FolderAndName(folder, base + ".test.ts");
    FolderAndName(folder, base + ".test.tsx");
  }

  lemma NamedTest(packages: seq<Package>, package: Package, p: string, t: string, base: string)
    requires Stem(Basename(p)) == base && base != ""
    requires Basename(t) == base + ".test.ts" || Basename(t) == base + ".test.tsx"
    requires Owns(packages, package, p) && StartsWith(t, package.dir + "/")
    ensures IsMappedTest(t, p, packages)
  {
    OwnerIsFirst(p, packages);
  }

  /** A changed source file has the tests named after it in its package run. */
  lemma SourceGetsItsTest(packages: seq<Package>, testFiles: seq<string>, paths: seq<string>, keys: set<Key>,
                          package: Package, p: string, t: string, folder: string, beside: string, base: string)
    requires PlanIs(packages, testFiles, paths, keys)
    requires p in paths && OfKind(p, Ordinary) && !IsTestFilePath(p) && Owns(packages, package, p)
    requires t in testFiles && StartsWith(t, package.dir + "/")
    requires base != "" && '/' !in base && SourceNamed(p, folder, base) && TestNamed(t, beside, base)
    ensures TestFile(t) in keys
  {
    SourceStem(p, folder, base);
    TestName(t, beside, base);
    NamedTest(packages, package, p, t, base);
    Included(packages, testFiles, paths, keys, p, t);
  }

  lemma Included(packages: seq<Package>, testFiles: seq<string>, paths: seq<string>, keys: set<Key>, p: string, t: string)
    requires PlanIs(packages, testFiles, paths, keys)
    requires p in paths && OfKind(p, Ordinary) && Tests(packages, t, p) && t in testFiles
    ensures TestFile(t) in keys
  {
    TestPlanned(packages, testFiles, paths, keys, t);
  }

  /** The directory a task runs in. */
  ghost predicate RunsIn(packages: seq<Package>, t: Task) {
    if t.key.CheckPackage? || t.key.TestPackage? then forall p :: p in packages && p.name == t.key.name ==> t.cwd == At(p.dir)
    else if t.key == WebTypecheck || t.key == WebBuild then t.cwd == Cwd.Web
    else t.cwd == Root
  }

  lemma RunIn(packages: seq<Package>, tasks: seq<Task>)
    requires DistinctNames(packages) && Lawful(tasks, packages)
    ensures forall t :: t in tasks ==> RunsIn(packages, t)
  {
    forall t, p | t in tasks && p in packages && (t.key.CheckPackage? || t.key.TestPackage?) && p.name == t.key.name
      ensures t.cwd == At(p.dir)
    {
      DirOfMember(packages, p);
    }
  }

  /** The plan of a pull request, from the changed paths, the packages and the
      test files there are. */
  method PlanPullRequest(paths: seq<string>, packages: seq<Package>, testFiles: seq<string>) returns (tasks: seq<Task>)
    requires DistinctNames(packages) && forall p :: p in packages ==> p.name != ""
    ensures UniqueKeys(tasks) && forall t :: t in tasks ==> RunsIn(packages, t)
    ensures PlanIs(packages, testFiles, paths, Keys(tasks))
  {
    var ws := WorkspaceOf(packages, testFiles);
    WorkspaceOfIsLawful(packages, testFiles);
    tasks := PlanTargetedTasks(paths, ws);
    PlanIsExactly(packages, testFiles, paths, Keys(tasks));
    RunIn(packages, tasks);
  }
}
