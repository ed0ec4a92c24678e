/** How the planner classifies changed paths. */
module CiPaths {
  predicate StartsWith(s: string, prefix: string) {
    prefix <= s
  }

  predicate EndsWith(s: string, suffix: string) {
    |suffix| <= |s| && s[|s| - |suffix|..] == suffix
  }

  /** Index of the last slash, or -1. */
  function LastSlash(s: string): (i: int)
    ensures -1 <= i < |s|
  {
    if s == [] then -1 else if s[|s| - 1] == '/' then |s| - 1 else LastSlash(s[..|s| - 1])
  }

  /** Last component of a path without trailing slashes. */
  function Basename(s: string): string {
    s[LastSlash(s) + 1..]
  }

  function Dirname(s: string): string {
    var i := LastSlash(s);
    if i < 0 then "." else if i == 0 then "/" else s[..i]
  }

  predicate IsDocOrChangelogPath(p: string) {
    EndsWith(p, ".md") || StartsWith(p, "docs/") || StartsWith(p, ".gjc/")
  }

  predicate IsTestFilePath(p: string) {
    EndsWith(p, ".test.ts") || EndsWith(p, ".test.tsx")
  }

  predicate IsCiHarnessScriptPath(p: string) {
    p == "scripts/ci-dev-affected.ts" || p == "scripts/ci-dev-affected.test.ts" || p == "scripts/check-workflow-yaml.ts"
  }

  predicate IsWebPath(p: string) {
    StartsWith(p, "python/robogjc/web/")
  }

  predicate IsCodeIshPath(p: string) {
    EndsWith(p, ".ts") || EndsWith(p, ".tsx") || EndsWith(p, ".js") || EndsWith(p, ".jsx") || EndsWith(p, ".mts") ||
    EndsWith(p, ".cts") || EndsWith(p, ".mjs") || EndsWith(p, ".cjs") || EndsWith(p, ".json") || EndsWith(p, ".jsonc") ||
    EndsWith(p, ".toml") || EndsWith(p, ".yml") || EndsWith(p, ".yaml") || EndsWith(p, ".sh") || p == "bun.lock"
  }

  predicate IsFullWorkspacePath(p: string) {
    p == "package.json" || p == "bunfig.toml" || p == "biome.json" || p == "tsconfig.json" ||
    p == "tsconfig.base.json" || p == "tsconfig.tools.json"
  }

  predicate IsReleaseHarnessScriptPath(p: string) {
    p == "scripts/ci-dev-affected.ts" || p == "scripts/ci-release-publish.ts" ||
    p == "scripts/install-tests/tarball.dockerfile" || p == "scripts/release-publish-order.test.ts" ||
    p == "scripts/sync-versions.ts"
  }

  predicate IsUnscopedWrapperPath(p: string) {
    StartsWith(p, "packages/gajae-code/")
  }

  predicate IsReleasePublishPath(p: string) {
    p == "scripts/ci-release-publish.ts" || StartsWith(p, "packages/gajae-code/")
  }

  /** Paths that may change beside package.json without a full run. */
  predicate IsReleaseHarnessPath(p: string) {
    p == "package.json" || IsReleasePublishPath(p) || IsReleaseHarnessScriptPath(p) || IsUnscopedWrapperPath(p)
  }

  predicate IsPythonPath(p: string) {
    StartsWith(p, "python/robogjc/") && !StartsWith(p, "python/robogjc/web/") && !StartsWith(p, "python/robogjc/assets/")
  }

  predicate IsRustPath(p: string) {
    var name := Basename(p);
    || StartsWith(p, "crates/") || StartsWith(p, ".cargo/")
    || name == "Cargo.toml" || name == "Cargo.lock" || name == "rust-toolchain" || name == "rust-toolchain.toml"
    || name == "rustfmt.toml" || name == ".rustfmt.toml" || name == "clippy.toml" || name == ".clippy.toml"
  }

  predicate IsInstallPath(p: string) {
    StartsWith(p, "scripts/install") || p == "Dockerfile" || p == "Dockerfile.dockerignore"
  }

  predicate IsCodingAgentRuntimePath(p: string) {
    StartsWith(p, "packages/coding-agent/") || StartsWith(p, "packages/agent/") || StartsWith(p, "packages/ai/")
  }

  predicate IsDeepInterviewPath(p: string) {
    p == "packages/coding-agent/src/defaults/gjc/skills/deep-interview/SKILL.md" ||
    p == "packages/coding-agent/src/gjc-runtime/deep-interview-runtime.ts" ||
    p == "packages/coding-agent/test/default-gjc-definitions.test.ts" ||
    p == "packages/coding-agent/test/gjc-runtime/deep-interview-runtime.test.ts"
  }

  predicate IsWorkflowPath(p: string) {
    StartsWith(p, ".github/workflows/")
  }

  predicate IsWorkflowHarnessPath(p: string) {
    IsWorkflowPath(p) || p == "scripts/ci-dev-affected.ts" || p == "scripts/check-workflow-yaml.ts"
  }

  predicate IsToolingScriptPath(p: string) {
    StartsWith(p, "scripts/") || p == "bun.lock"
  }

  // ---------- Facts about names ----------

  lemma NotPrefix(s: string, prefix: string)
    requires s != "" && prefix != "" && s[0] != prefix[0]
    ensures !StartsWith(s, prefix)
  {
  }

  lemma NotSuffix(s: string, suffix: string)
    requires s != "" && suffix != "" && s[|s| - 1] != suffix[|suffix| - 1]
    ensures !EndsWith(s, suffix)
  {
  }

  lemma {:induction false} NoSlash(s: string)
    requires '/' !in s
    ensures LastSlash(s) == -1 && Basename(s) == s
  {
    if s != [] {
      NoSlash(s[..|s| - 1]);
    }
    assert s[0..] == s;
  }

  lemma {:induction false} LastSlashAfter(folder: string, name: string)
    requires '/' !in name
    ensures LastSlash(folder + "/" + name) == |folder|
  {
    var p := folder + "/" + name;
    if name == [] {
      assert p[|p| - 1] == '/';
    } else {
      assert p[..|p| - 1] == folder + "/" + name[..|name| - 1];
      assert p[|p| - 1] == name[|name| - 1];
      LastSlashAfter(folder, name[..|name| - 1]);
    }
  }

  /** The last component of a path and the folder before it. */
  lemma FolderAndName(folder: string, name: string)
    requires '/' !in name
    ensures Basename(folder + "/" + name) == name
    ensures folder != "" ==> Dirname(folder + "/" + name) == folder
  {
    LastSlashAfter(folder, name);
  }

  /** Of the full-workspace files only package.json can take part in a release
      change that needs no full run. */
  lemma OnlyPackageJsonIsHarness(p: string)
    requires IsFullWorkspacePath(p) && p != "package.json"
    ensures !IsReleaseHarnessPath(p)
  {
    assert p[0] == 'b' || p[0] == 't';
  }

  lemma DeepIsNotFull(p: string)
    requires IsDeepInterviewPath(p)
    ensures !IsFullWorkspacePath(p)
  {
    assert |p| > 40;
  }
}
