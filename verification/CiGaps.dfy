/** A change of which a push leaves out what a pull request runs. */
module CiGaps {
  import opened Options
  import opened CiPaths
  import opened CiPlanner
  import opened CiPlans
  import opened CiCoverage

  const NAMES := Named(
    "scripts/release-publish-order.test.ts", "scripts/ci-dev-affected.test.ts",
    "packages/coding-agent/test/default-gjc-definitions.test.ts",
    "packages/coding-agent/test/gjc-runtime/deep-interview-runtime.test.ts")

  const TURBO := "turbo.json"

  lemma Turbo()
    ensures |TURBO| == 10 && TURBO[0] == 't' && TURBO[1] == 'u' && TURBO[9] == 'n' && '/' !in TURBO
    ensures EndsWith(TURBO, ".json")
  {
    assert TURBO[5..] == ".json";
  }

  lemma TurboIsNoDoc()
    ensures !IsDocOrChangelogPath(TURBO)
  {
    Turbo();
    NotSuffix(TURBO, ".md");
    NotPrefix(TURBO, "docs/");
    NotPrefix(TURBO, ".gjc/");
  }

  lemma TurboIsNoCi()
    ensures !IsWorkflowPath(TURBO) && !IsCiHarnessScriptPath(TURBO) && !IsToolingScriptPath(TURBO)
  {
    Turbo();
    NotPrefix(TURBO, ".github/workflows/");
    NotPrefix(TURBO, "scripts/");
  }

  lemma TurboIsNoPython()
    ensures !IsPythonPath(TURBO) && !IsWebPath(TURBO) && !IsInstallPath(TURBO)
  {
    Turbo();
    NotPrefix(TURBO, "python/robogjc/");
    NotPrefix(TURBO, "python/robogjc/web/");
    NotPrefix(TURBO, "scripts/install");
  }

  lemma TurboIsNoRust()
    ensures !IsRustPath(TURBO)
  {
    Turbo();
    NoSlash(TURBO);
    NotPrefix(TURBO, "crates/");
    NotPrefix(TURBO, ".cargo/");
  }

  lemma TurboIsNoConfig()
    ensures !IsFullWorkspacePath(TURBO)
  {
    Turbo();
  }

  lemma TurboFacts()
    ensures
      var f := FactsOf(TURBO);
      !f.doc && !f.full && !OfSpecialKind(f) && f.codeIsh && !f.tooling
  {
    Turbo();
    TurboIsNoDoc();
    TurboIsNoCi();
    TurboIsNoPython();
    TurboIsNoRust();
    TurboIsNoConfig();
  }

  lemma TurboWorkspace()
    ensures
      var ws := WorkspaceOf([], []);
      var f := ws.facts(TURBO);
      && !f.doc && !f.full && !OfSpecialKind(f) && f.codeIsh && !f.tooling
      && ws.owner(TURBO).None? && ws.mapped(TURBO) == []
  {
    TurboFacts();
    NoMapping(TURBO);
  }

  /** `turbo.json` changed alone. */
  lemma TurboExample(affected: seq<Package>)
    ensures TargetedKey(WorkspaceOf([], []), [TURBO], RootCheck)
    ensures !Runs(NAMES, WorkspaceOf([], []), FlagsOf(WorkspaceOf([], []), [TURBO]), affected, RootCheck)
  {
    TurboWorkspace();
    RootFileAlone(NAMES, WorkspaceOf([], []), TURBO, affected);
  }

  lemma NoMapping(p: string)
    ensures MappedTestsFor(p, [], []) == [] && OwningPackage(p, []) == None
  {
  }
}
