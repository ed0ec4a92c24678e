/** Whether the broad plan of a push runs all that the targeted plan of a pull
    request with the same changes runs. */
module CiCoverage {
  import opened Options
  import opened CiPaths
  import opened CiPlanner
  import opened CiPlans

  /** The test files that have a push task of their own. */
  datatype Named = Named(release: string, selector: string, definitions: string, runtime: string)

  /** How facts about one path hang together, in every workspace. */
  ghost predicate Consistent(ws: Workspace) {
    && LawfulWorkspace(ws)
    && (forall p :: ws.facts(p).workflow ==> ws.facts(p).workflowHarness)
    && (forall p :: ws.facts(p).deepInterview ==> !ws.facts(p).full)
    && (forall p :: ws.owner(p).Some? ==> Touches(p, ws.owner(p).value.dir))
  }

  // ---------- What stands for what ----------

  /** A push task that runs the test file: its own command does, or that of the
      package or of all packages, or the one command made for that file. */
  predicate TestStands(names: Named, ws: Workspace, j: Key, test: string) {
    || (ws.owner(test).Some? && HasScript(ws.owner(test).value, "test")
        && (j == RootTest || j == TestPackage(ws.owner(test).value.name)))
    || (test == names.release && (j == RootTest || j == ReleaseContract))
    || (test == names.selector && j == AffectedSelftest)
    || (test == names.definitions && j == DeepDefinitions)
    || (test == names.runtime && j == DeepRuntime)
  }

  /** The task `j` runs all that the task `k` runs: the same command, the root
      check for a package's, or a test run that takes in the file. */
  predicate StandsFor(names: Named, ws: Workspace, j: Key, k: Key) {
    || j == k
    || (k == CiSelftest && j == AffectedSelftest)
    || (k == CiDryRun && j == AffectedDryRun)
    || (k == YamlParse && j == WorkflowYaml)
    || (k.CheckPackage? && j == RootCheck)
    || (k.TestFile? && TestStands(names, ws, j, k.file))
  }

  /** Some task of the push plan stands for the task. */
  ghost predicate Runs(names: Named, ws: Workspace, fl: Flags, affected: seq<Package>, k: Key) {
    exists j :: PushKey(fl, affected, j) && StandsFor(names, ws, j, k)
  }

  // ---------- Where nothing does ----------

  predicate RunsTest(names: Named, ws: Workspace, fl: Flags, affected: seq<Package>, test: string) {
    if fl.deepOnly then test == names.definitions || test == names.runtime
    else
      || (ws.owner(test).Some? && HasScript(ws.owner(test).value, "test")
          && (fl.full || (fl.packaged && ws.owner(test).value in affected)))
      || (test == names.release && (fl.full || fl.publish))
      || (test == names.selector && fl.harness)
  }

  /** A changed path of which a push leaves out something a pull request runs. */
  predicate Gap(names: Named, ws: Workspace, fl: Flags, affected: seq<Package>, p: string) {
    var f := ws.facts(p);
    if f.full then false
    else if f.workflow then fl.deepOnly
    else if f.ciHarness then fl.deepOnly || !fl.harness
    else if f.python || f.web || f.rust || f.install then fl.deepOnly
    else if ws.mapped(p) != [] then exists t :: t in ws.mapped(p) && !RunsTest(names, ws, fl, affected, t)
    else if ws.owner(p).Some? then
      if fl.deepOnly then HasScript(ws.owner(p).value, "check") || f.runtime || f.wrapper || f.publish
      else HasScript(ws.owner(p).value, "check") && !fl.full && !fl.packaged
    else f.codeIsh && (fl.deepOnly || !(fl.full || (fl.packaged && fl.tooling)))
  }

  // ---------- The two agree ----------

  /** The push planner's answers for these paths. */
  ghost predicate Planned(ws: Workspace, paths: seq<string>, affected: seq<Package>) {
    && (forall p :: p in affected ==> p in ws.packages)
    && LeastClosed(Names(affected), Names(FindTouched(paths, ws.packages)), ws.packages)
  }

  lemma SameName(packages: seq<Package>, p: Package, q: Package)
    requires DistinctNames(packages) && p in packages && q in packages && p.name == q.name
    ensures p == q
  {
    var i :| 0 <= i < |packages| && packages[i] == p;
    var j :| 0 <= j < |packages| && packages[j] == q;
  }

  /** The owner of a changed path is affected. */
  lemma OwnerAffected(ws: Workspace, paths: seq<string>, affected: seq<Package>, p: string)
    requires Consistent(ws) && Planned(ws, paths, affected) && p in paths && ws.owner(p).Some?
    ensures ws.owner(p).value in affected
  {
    var q := ws.owner(p).value;
    TouchedAre(paths, ws.packages);
    assert q in FindTouched(paths, ws.packages);
    NamesAre(FindTouched(paths, ws.packages), q.name);
    NamesAre(affected, q.name);
    var r :| r in affected && r.name == q.name;
    SameName(ws.packages, q, r);
  }

  lemma RunsItself(names: Named, ws: Workspace, fl: Flags, affected: seq<Package>, j: Key, k: Key)
    requires PushKey(fl, affected, j) && StandsFor(names, ws, j, k)
    ensures Runs(names, ws, fl, affected, k)
  {
  }

  lemma RunsTestExactly(names: Named, ws: Workspace, fl: Flags, affected: seq<Package>, test: string)
    requires Consistent(ws) && forall p :: p in affected ==> p in ws.packages
    ensures Runs(names, ws, fl, affected, TestFile(test)) <==> RunsTest(names, ws, fl, affected, test)
  {
    if RunsTest(names, ws, fl, affected, test) {
      TestIsRun(names, ws, fl, affected, test);
    }
    if Runs(names, ws, fl, affected, TestFile(test)) {
      var j :| PushKey(fl, affected, j) && StandsFor(names, ws, j, TestFile(test));
      StandingTest(names, ws, fl, affected, j, test);
    }
  }

  lemma NoTestFile(fl: Flags, affected: seq<Package>, test: string)
    ensures !PushKey(fl, affected, TestFile(test))
  {
  }

  lemma StandingTest(names: Named, ws: Workspace, fl: Flags, affected: seq<Package>, j: Key, test: string)
    requires Consistent(ws) && forall p :: p in affected ==> p in ws.packages
    requires PushKey(fl, affected, j) && StandsFor(names, ws, j, TestFile(test))
    ensures RunsTest(names, ws, fl, affected, test)
  {
    NoTestFile(fl, affected, test);
    assert TestStands(names, ws, j, test);
    if j.TestPackage? {
      StandingPackage(names, ws, fl, affected, j, test);
    } else {
      PlainTestKey(fl, affected, j);
    }
  }

  lemma StandingPackage(names: Named, ws: Workspace, fl: Flags, affected: seq<Package>, j: Key, test: string)
    requires Consistent(ws) && forall p :: p in affected ==> p in ws.packages
    requires PushKey(fl, affected, j) && j.TestPackage? && TestStands(names, ws, j, test)
    ensures RunsTest(names, ws, fl, affected, test)
  {
    assert EarlyKey(fl, affected, j);
    var p :| p in affected && AskedBy(p, j);
    SameName(ws.packages, p, ws.owner(test).value);
  }

  lemma PlainTestKey(fl: Flags, affected: seq<Package>, j: Key)
    requires PushKey(fl, affected, j)
    ensures j in {DeepDefinitions, DeepRuntime} ==> fl.deepOnly
    ensures j == RootTest ==> !fl.deepOnly && fl.full
    ensures j == ReleaseContract ==> !fl.deepOnly && fl.publish
    ensures j == AffectedSelftest ==> !fl.deepOnly && fl.harness
  {
  }

  lemma TestIsRun(names: Named, ws: Workspace, fl: Flags, affected: seq<Package>, test: string)
    requires RunsTest(names, ws, fl, affected, test)
    ensures Runs(names, ws, fl, affected, TestFile(test))
  {
    var j :=
      if fl.deepOnly then if test == names.definitions then DeepDefinitions else DeepRuntime
      else if test == names.selector && fl.harness then AffectedSelftest
      else if test == names.release && fl.publish then ReleaseContract
      else if fl.full then RootTest
      else TestPackage(ws.owner(test).value.name);
    assert PushKey(fl, affected, j);
    RunsItself(names, ws, fl, affected, j, TestFile(test));
  }

  /** The flags that a changed path with these facts raises. */
  predicate Raised(f: PathFacts, fl: Flags) {
    && (f.python ==> fl.python) && (f.web ==> fl.web) && (f.rust ==> fl.rust) && (f.install ==> fl.install)
    && (f.publish ==> fl.publish) && (f.wrapper ==> fl.wrapper) && (f.workflow ==> fl.workflow)
    && (f.workflowHarness ==> fl.harness) && (f.runtime && !fl.deepOnly ==> fl.native)
  }

  lemma ChangesRaise(ws: Workspace, paths: seq<string>, p: string)
    requires p in paths
    ensures Raised(ws.facts(p), FlagsOf(ws, paths))
  {
  }

  predicate OfSpecialKind(f: PathFacts) {
    f.workflow || f.ciHarness || f.python || f.web || f.rust || f.install
  }

  lemma SpecialRuns(names: Named, ws: Workspace, fl: Flags, affected: seq<Package>, p: string, k: Key)
    requires Consistent(ws) && Raised(ws.facts(p), fl) && OfSpecialKind(ws.facts(p))
    requires k in PathKeys(ws, p) && !Gap(names, ws, fl, affected, p)
    ensures Runs(names, ws, fl, affected, k)
  {
    var j :=
      match k
      case CiSelftest => AffectedSelftest
      case CiDryRun => AffectedDryRun
      case YamlParse => WorkflowYaml
      case _ => k;
    assert LateKey(fl, j);
    RunsItself(names, ws, fl, affected, j, k);
  }

  lemma OwnedRuns(names: Named, ws: Workspace, fl: Flags, affected: seq<Package>, p: string, k: Key)
    requires Raised(ws.facts(p), fl) && !OfSpecialKind(ws.facts(p)) && !ws.facts(p).full
    requires ws.mapped(p) == [] && ws.owner(p).Some? && ws.owner(p).value in affected
    requires k in OwnedKeys(ws.facts(p), ws.owner(p).value) && !Gap(names, ws, fl, affected, p)
    ensures Runs(names, ws, fl, affected, k)
  {
    if k.CheckPackage? {
      assert AskedBy(ws.owner(p).value, k);
      RunsItself(names, ws, fl, affected, if fl.full then RootCheck else k, k);
    } else {
      assert LateKey(fl, k);
      RunsItself(names, ws, fl, affected, k, k);
    }
  }

  lemma RootRuns(names: Named, ws: Workspace, fl: Flags, affected: seq<Package>)
    ensures Runs(names, ws, fl, affected, RootCheck) <==> !fl.deepOnly && (fl.full || (fl.packaged && fl.tooling))
  {
    if !fl.deepOnly && (fl.full || (fl.packaged && fl.tooling)) {
      RunsItself(names, ws, fl, affected, RootCheck, RootCheck);
    }
  }

  /** A path without a gap has all its tasks run. */
  lemma PathRuns(names: Named, ws: Workspace, paths: seq<string>, affected: seq<Package>, p: string, k: Key)
    requires Consistent(ws) && Planned(ws, paths, affected) && p in paths && k in PathKeys(ws, p)
    requires !Gap(names, ws, FlagsOf(ws, paths), affected, p)
    ensures Runs(names, ws, FlagsOf(ws, paths), affected, k)
  {
    var fl := FlagsOf(ws, paths);
    ChangesRaise(ws, paths, p);
    if OfSpecialKind(ws.facts(p)) {
      SpecialRuns(names, ws, fl, affected, p, k);
    } else if ws.mapped(p) != [] {
      RunsTestExactly(names, ws, fl, affected, k.file);
    } else if ws.owner(p).Some? {
      OwnerAffected(ws, paths, affected, p);
      OwnedRuns(names, ws, fl, affected, p, k);
    } else {
      RootRuns(names, ws, fl, affected);
    }
  }

  lemma DeepRuns(names: Named, ws: Workspace, fl: Flags, affected: seq<Package>, k: Key)
    requires fl.deepOnly && Runs(names, ws, fl, affected, k)
    ensures k.TestFile? || k in {NativeLinux, DeepDefinitions, DeepRuntime}
  {
  }

  lemma SelftestRuns(names: Named, ws: Workspace, fl: Flags, affected: seq<Package>)
    requires Runs(names, ws, fl, affected, CiSelftest)
    ensures fl.harness && !fl.deepOnly
  {
  }

  lemma CheckRuns(names: Named, ws: Workspace, fl: Flags, affected: seq<Package>, name: string)
    requires Runs(names, ws, fl, affected, CheckPackage(name))
    ensures !fl.deepOnly && (fl.full || fl.packaged)
  {
  }

  /** A task that a gap leaves out. */
  lemma Missed(names: Named, ws: Workspace, fl: Flags, affected: seq<Package>, p: string) returns (k: Key)
    requires Consistent(ws) && (forall q :: q in affected ==> q in ws.packages) && Gap(names, ws, fl, affected, p)
    ensures k in PathKeys(ws, p) && !Runs(names, ws, fl, affected, k)
  {
    var f := ws.facts(p);
    if OfSpecialKind(f) {
      k := if f.workflow || f.ciHarness then CiSelftest else if f.python then PythonLint else if f.web then WebBuild
           else if f.rust then RustCheck else InstallMethods;
      if Runs(names, ws, fl, affected, k) {
        if f.workflow || f.ciHarness {
          SelftestRuns(names, ws, fl, affected);
        } else {
          DeepRuns(names, ws, fl, affected, k);
        }
      }
    } else if ws.mapped(p) != [] {
      var t :| t in ws.mapped(p) && !RunsTest(names, ws, fl, affected, t);
      RunsTestExactly(names, ws, fl, affected, t);
      k := TestFile(t);
    } else if ws.owner(p).Some? {
      k := MissedOwned(names, ws, fl, affected, p);
    } else {
      RootRuns(names, ws, fl, affected);
      k := RootCheck;
    }
  }

  lemma MissedOwned(names: Named, ws: Workspace, fl: Flags, affected: seq<Package>, p: string) returns (k: Key)
    requires Gap(names, ws, fl, affected, p) && !OfSpecialKind(ws.facts(p)) && ws.mapped(p) == [] && ws.owner(p).Some?
    ensures k in PathKeys(ws, p) && !Runs(names, ws, fl, affected, k)
  {
    var f, q := ws.facts(p), ws.owner(p).value;
    k := if HasScript(q, "check") then CheckPackage(q.name)
         else if f.runtime then CliSmoke else if f.wrapper then WrapperVersion else ReleaseContract;
    if Runs(names, ws, fl, affected, k) {
      if k.CheckPackage? {
        CheckRuns(names, ws, fl, affected, q.name);
      } else {
        DeepRuns(names, ws, fl, affected, k);
      }
    }
  }

  /** The tasks of a full run are in the push plan of the same paths. */
  lemma FullRuns(names: Named, ws: Workspace, paths: seq<string>, affected: seq<Package>, k: Key)
    requires Consistent(ws) && FullWorkspace(ws, Relevant(ws, paths)) && k in FULL_KEYS
    ensures Runs(names, ws, FlagsOf(ws, paths), affected, k)
  {
    forall p ensures p in Relevant(ws, paths) ==> p in paths {
      RelevantAre(ws, paths, p);
    }
    FullWorkspaceMonotone(ws, Relevant(ws, paths), paths);
    RunsItself(names, ws, FlagsOf(ws, paths), affected, k, k);
  }

  /** The push plan runs all that the pull-request plan runs, native builds aside,
      exactly when no relevant path leaves a gap. */
  lemma PushCoversExactly(names: Named, ws: Workspace, paths: seq<string>, affected: seq<Package>)
    requires Consistent(ws) && Planned(ws, paths, affected)
    ensures
      (forall k :: TargetedKey(ws, paths, k) && !IsNativeBuild(k) ==> Runs(names, ws, FlagsOf(ws, paths), affected, k))
      <==> (forall p :: p in paths && !ws.facts(p).doc ==> !Gap(names, ws, FlagsOf(ws, paths), affected, p))
  {
    var fl := FlagsOf(ws, paths);
    if forall p :: p in paths && !ws.facts(p).doc ==> !Gap(names, ws, fl, affected, p) {
      forall k | TargetedKey(ws, paths, k) && !IsNativeBuild(k) ensures Runs(names, ws, fl, affected, k) {
        if FullWorkspace(ws, Relevant(ws, paths)) && k in FULL_KEYS {
          FullRuns(names, ws, paths, affected, k);
        } else {
          var p :| p in Relevant(ws, paths) && k in PathKeys(ws, p);
          RelevantAre(ws, paths, p);
          PathRuns(names, ws, paths, affected, p, k);
        }
      }
    }
    if p :| p in paths && !ws.facts(p).doc && Gap(names, ws, fl, affected, p) {
      var k := Missed(names, ws, fl, affected, p);
      RelevantAre(ws, paths, p);
      NotNative(ws, p, k);
      assert BaseKey(ws, paths, k);
    }
  }

  lemma NotNative(ws: Workspace, p: string, k: Key)
    requires k in PathKeys(ws, p)
    ensures !IsNativeBuild(k)
  {
  }

  /** A source file of a package with a test script leaves no gap in a plan that
      looks at packages, as far as the tests named after it are that package's. */
  lemma PackagePathCovered(names: Named, ws: Workspace, paths: seq<string>, affected: seq<Package>, p: string)
    requires Consistent(ws) && Planned(ws, paths, affected) && p in paths
    requires !OfSpecialKind(ws.facts(p)) && ws.owner(p).Some? && HasScript(ws.owner(p).value, "test")
    requires forall t :: t in ws.mapped(p) ==> ws.owner(t) == ws.owner(p)
    requires !FlagsOf(ws, paths).deepOnly && (FlagsOf(ws, paths).full || FlagsOf(ws, paths).packaged)
    ensures !Gap(names, ws, FlagsOf(ws, paths), affected, p)
  {
    OwnerAffected(ws, paths, affected, p);
  }

  lemma {:induction false} OwnerTouches(path: string, packages: seq<Package>)
    ensures OwningPackage(path, packages).Some? ==> Touches(path, OwningPackage(path, packages).value.dir)
  {
    if packages != [] {
      OwnerTouches(path, packages[1..]);
    }
  }

  /** The facts the planners read off paths and packages hang together so. */
  lemma WorkspaceOfIsConsistent(packages: seq<Package>, testFiles: seq<string>)
    requires DistinctNames(packages) && forall p :: p in packages ==> p.name != ""
    ensures Consistent(WorkspaceOf(packages, testFiles))
  {
    var ws := WorkspaceOf(packages, testFiles);
    WorkspaceOfIsLawful(packages, testFiles);
    forall p | ws.facts(p).deepInterview ensures !ws.facts(p).full {
      DeepIsNotFull(p);
    }
    forall p | ws.owner(p).Some? ensures Touches(p, ws.owner(p).value.dir) {
      OwnerTouches(p, packages);
    }
  }

  /** A file of no package that is no script, changed alone: the pull request runs
      the root check, the push does not. */
  lemma RootFileAlone(names: Named, ws: Workspace, p: string, affected: seq<Package>)
    requires
      var f := ws.facts(p);
      !f.doc && !f.full && !OfSpecialKind(f) && f.codeIsh && !f.tooling
    requires ws.owner(p).None? && ws.mapped(p) == []
    ensures TargetedKey(ws, [p], RootCheck) && !Runs(names, ws, FlagsOf(ws, [p]), affected, RootCheck)
  {
    RelevantAre(ws, [p], p);
    assert p in [p] && RootCheck in PathKeys(ws, p);
    RootRuns(names, ws, FlagsOf(ws, [p]), affected);
  }

  /** The planner's own tests changed alone: the pull request runs them, the push
      does not. */
  lemma SelectorTestAlone(names: Named, ws: Workspace, p: string, affected: seq<Package>)
    requires
      var f := ws.facts(p);
      !f.doc && !f.full && !f.workflow && f.ciHarness && !f.workflowHarness
    ensures TargetedKey(ws, [p], CiSelftest) && !Runs(names, ws, FlagsOf(ws, [p]), affected, CiSelftest)
  {
    RelevantAre(ws, [p], p);
    assert p in [p] && CiSelftest in PathKeys(ws, p);
    if Runs(names, ws, FlagsOf(ws, [p]), affected, CiSelftest) {
      SelftestRuns(names, ws, FlagsOf(ws, [p]), affected);
    }
  }
}
