/** Selection of CI tasks from changed paths: the dependents closure, the plan
    for pushes, the targeted plan for pull requests, and the matrix split. */
module CiPlanner {
  import opened Options
  import opened CiPaths

  datatype Manifest = Manifest(scripts: map<string, string>, scopes: seq<map<string, string>>)

  datatype Package = Package(name: string, dir: string, manifest: Manifest)

  // ---------- Dependents ----------

  /** Some scope names the dependency with a version that is not empty, and the
      version is a workspace one or the dependency is a workspace package. */
  predicate DependsOn(m: Manifest, dependency: string, workspace: set<string>) {
    exists i :: 0 <= i < |m.scopes| && dependency in m.scopes[i] && m.scopes[i][dependency] != "" &&
      (StartsWith(m.scopes[i][dependency], "workspace:") || dependency in workspace)
  }

  function Names(packages: seq<Package>): set<string> {
    if packages == [] then {} else Names(packages[..|packages| - 1]) + {packages[|packages| - 1].name}
  }

  lemma {:induction false} NamesAre(packages: seq<Package>, n: string)
    ensures n in Names(packages) <==> exists p :: p in packages && p.name == n
  {
    if packages != [] {
      var front, last := packages[..|packages| - 1], packages[|packages| - 1];
      NamesAre(front, n);
      assert packages == front + [last];
    }
  }

  /** Every package that depends on a member is a member. */
  ghost predicate Closed(names: set<string>, packages: seq<Package>) {
    forall i, n :: 0 <= i < |packages| && n in names && DependsOn(packages[i].manifest, n, Names(packages)) ==>
      packages[i].name in names
  }

  /** The least closed set that contains the touched names. */
  ghost predicate LeastClosed(names: set<string>, touched: set<string>, packages: seq<Package>) {
    && touched <= names && Closed(names, packages)
    && forall other: set<string> :: touched <= other && Closed(other, packages) ==> names <= other
  }

  /** Least closed sets grow with the touched set, and so are unique. */
  lemma LeastClosedMonotone(a: set<string>, b: set<string>, touchedA: set<string>, touchedB: set<string>, packages: seq<Package>)
    requires LeastClosed(a, touchedA, packages) && LeastClosed(b, touchedB, packages) && touchedA <= touchedB
    ensures a <= b
  {
    assert touchedA <= b && Closed(b, packages);
  }

  /** All dependents of the first `k` packages on a processed name are selected. */
  ghost predicate Followed(names: set<string>, processed: set<string>, packages: seq<Package>, k: nat)
    requires k <= |packages|
  {
    forall i, n :: 0 <= i < k && n in processed && DependsOn(packages[i].manifest, n, Names(packages)) ==>
      packages[i].name in names
  }

  /** The names are below every closed set that contains the touched ones. */
  ghost predicate Below(names: set<string>, touched: set<string>, packages: seq<Package>) {
    forall other: set<string> :: touched <= other && Closed(other, packages) ==> names <= other
  }

  lemma BelowStep(names: set<string>, touched: set<string>, packages: seq<Package>, i: nat, n: string)
    requires Below(names, touched, packages) && i < |packages| && n in names
    requires DependsOn(packages[i].manifest, n, Names(packages))
    ensures Below(names + {packages[i].name}, touched, packages)
  {
  }

  ghost predicate DistinctNames(packages: seq<Package>) {
    forall i, j :: 0 <= i < j < |packages| ==> packages[i].name != packages[j].name
  }

  /** The selection is a list of packages of the given names, each once. */
  ghost predicate Selection(selected: seq<Package>, names: set<string>, packages: seq<Package>) {
    && names == Names(selected)
    && names <= Names(packages)
    && DistinctNames(selected)
    && forall p :: p in selected ==> p in packages
  }

  lemma SelectionSnoc(selected: seq<Package>, names: set<string>, packages: seq<Package>, i: nat)
    requires Selection(selected, names, packages) && i < |packages| && packages[i].name !in names
    ensures Selection(selected + [packages[i]], names + {packages[i].name}, packages)
  {
    assert (selected + [packages[i]])[..|selected|] == selected;
    NamesAre(packages, packages[i].name);
    NamesAre(selected, packages[i].name);
  }

  lemma {:induction false} NamesWithin(touched: seq<Package>, packages: seq<Package>)
    requires forall p :: p in touched ==> p in packages
    ensures Names(touched) <= Names(packages)
  {
    forall n | n in Names(touched) ensures n in Names(packages) {
      NamesAre(touched, n);
      NamesAre(packages, n);
    }
  }

  lemma QueueOfTouched(touched: seq<Package>, queue: seq<string>)
    requires DistinctNames(touched)
    requires |queue| == |touched| && forall i :: 0 <= i < |queue| ==> queue[i] == touched[i].name
    ensures Enqueued(queue, [], queue, Names(touched))
  {
    assert [] + queue == queue;
    forall n ensures n in queue <==> n in Names(touched) {
      QueueHolds(touched, queue, n);
    }
    forall i, j | 0 <= i < j < |queue| ensures queue[i] != queue[j] {
      assert touched[i].name != touched[j].name;
    }
  }

  lemma QueueHolds(touched: seq<Package>, queue: seq<string>, n: string)
    requires |queue| == |touched| && forall i :: 0 <= i < |queue| ==> queue[i] == touched[i].name
    ensures n in queue <==> n in Names(touched)
  {
    NamesAre(touched, n);
    if n in Names(touched) {
      var p :| p in touched && p.name == n;
      var i :| 0 <= i < |touched| && touched[i] == p;
      assert queue[i] == n;
    }
  }

  /** What has been put in the queue so far, in order: `done` was taken out again,
      `queue` was not. Every selected name was put in exactly once. */
  ghost predicate Enqueued(enqueued: seq<string>, done: seq<string>, queue: seq<string>, names: set<string>) {
    && enqueued == done + queue
    && (forall i, j :: 0 <= i < j < |enqueued| ==> enqueued[i] != enqueued[j])
    && (forall n :: n in enqueued <==> n in names)
  }

  lemma EnqueueOne(enqueued: seq<string>, done: seq<string>, queue: seq<string>, names: set<string>, n: string)
    requires Enqueued(enqueued, done, queue, names) && n !in names
    ensures Enqueued(enqueued + [n], done, queue + [n], names + {n})
  {
    assert done + (queue + [n]) == enqueued + [n];
  }

  lemma DequeueOne(enqueued: seq<string>, done: seq<string>, queue: seq<string>, names: set<string>)
    requires Enqueued(enqueued, done, queue, names) && queue != []
    ensures Enqueued(enqueued, done + [queue[0]], queue[1..], names) && queue[0] in names
  {
    assert queue == [queue[0]] + queue[1..];
    assert done + [queue[0]] + queue[1..] == enqueued;
    assert enqueued[|done|] == queue[0];
  }

  /** The scan of all packages for dependents of one name; the new ones are
      selected and queued. */
  method SelectDependents(current: string, packages: seq<Package>, selected0: seq<Package>, names0: set<string>,
                          queue0: seq<string>, ghost touched: set<string>, ghost enqueued0: seq<string>, ghost done: seq<string>)
    returns (selected: seq<Package>, names: set<string>, queue: seq<string>, ghost enqueued: seq<string>)
    requires Selection(selected0, names0, packages) && current in names0 && Below(names0, touched, packages)
    requires Enqueued(enqueued0, done, queue0, names0)
    ensures Selection(selected, names, packages) && names0 <= names && Below(names, touched, packages)
    ensures Followed(names, {current}, packages, |packages|)
    ensures names == names0 ==> queue == queue0
    ensures Enqueued(enqueued, done, queue, names)
  {
    selected, names, queue, enqueued := selected0, names0, queue0, enqueued0;
    for k := 0 to |packages|
      invariant Selection(selected, names, packages) && names0 <= names && Below(names, touched, packages)
      invariant Followed(names, {current}, packages, k)
      invariant names == names0 ==> queue == queue0
      invariant Enqueued(enqueued, done, queue, names)
    {
      var candidate := packages[k];
      if candidate.name in names {
        continue;
      }
      if DependsOn(candidate.manifest, current, Names(packages)) {
        SelectionSnoc(selected, names, packages, k);
        BelowStep(names, touched, packages, k, current);
        EnqueueOne(enqueued, done, queue, names, candidate.name);
        selected := selected + [candidate];
        names := names + {candidate.name};
        queue := queue + [candidate.name];
        enqueued := enqueued + [candidate.name];
      }
    }
  }

  lemma Progress(names: set<string>, names': set<string>, packages: seq<Package>)
    requires names <= names' <= Names(packages)
    ensures |Names(packages) - names'| <= |Names(packages) - names|
    ensures names != names' ==> |Names(packages) - names'| < |Names(packages) - names|
  {
    var a, b := Names(packages) - names', Names(packages) - names;
    assert a <= b;
    CountSubset(a, b);
    if names != names' {
      var n :| n in names' && n !in names;
      assert n in b && n !in a;
      CountSubset(a, b - {n});
    }
  }

  lemma {:induction false} CountSubset<T>(a: set<T>, b: set<T>)
    requires a <= b
    ensures |a| <= |b|
    decreases a
  {
    if a != {} {
      var x :| x in a;
      CountSubset(a - {x}, b - {x});
    }
  }

  /** The worklist: every package is selected once, and put in the queue exactly
      once over the whole run. No queued name is empty, so none is passed over. */
  method ExpandWithDependents(touched: seq<Package>, packages: seq<Package>)
    returns (selected: seq<Package>, ghost enqueued: seq<string>)
    requires DistinctNames(touched) && forall p :: p in touched ==> p in packages
    requires forall p :: p in packages ==> p.name != ""
    ensures DistinctNames(selected) && forall p :: p in selected ==> p in packages
    ensures LeastClosed(Names(selected), Names(touched), packages)
    ensures Enqueued(enqueued, enqueued, [], Names(selected))
  {
    selected := touched;
    var names := Names(touched);
    var queue := seq(|touched|, i requires 0 <= i < |touched| => touched[i].name);
    enqueued := queue;
    ghost var done: seq<string> := [];
    QueueOfTouched(touched, queue);
    NamesWithin(touched, packages);
    while queue != []
      invariant Selection(selected, names, packages) && Names(touched) <= names
      invariant Enqueued(enqueued, done, queue, names)
      invariant Followed(names, Items(done), packages, |packages|)
      invariant Below(names, Names(touched), packages)
      decreases |Names(packages) - names|, |queue|
    {
      var current := queue[0];
      ghost var names0 := names;
      DequeueOne(enqueued, done, queue, names);
      queue := queue[1..];
      selected, names, queue, enqueued :=
        SelectDependents(current, packages, selected, names, queue, Names(touched), enqueued, done + [current]);
      FollowedStep(names0, names, done, current, packages);
      Progress(names0, names, packages);
      done := done + [current];
    }
    assert done + [] == done;
    FollowedAll(names, done, packages);
  }

  function Items(names: seq<string>): set<string> {
    set n | n in names
  }

  lemma FollowedStep(names0: set<string>, names: set<string>, done: seq<string>, current: string, packages: seq<Package>)
    requires names0 <= names
    requires Followed(names0, Items(done), packages, |packages|) && Followed(names, {current}, packages, |packages|)
    ensures Followed(names, Items(done + [current]), packages, |packages|)
  {
    assert Items(done + [current]) == Items(done) + {current};
  }

  lemma FollowedAll(names: set<string>, done: seq<string>, packages: seq<Package>)
    requires (forall n :: n in names ==> n in done) && Followed(names, Items(done), packages, |packages|)
    ensures Closed(names, packages)
  {
    forall i, n | 0 <= i < |packages| && n in names && DependsOn(packages[i].manifest, n, Names(packages))
      ensures packages[i].name in names
    {
      assert n in Items(done);
    }
  }

  // ---------- Tasks ----------

  /** Task keys; `CheckPackage(n)` reads `check:n`, and `TestPackage(n)` and
      `TestFile(f)` read `test:n` and `test:f`. */
  datatype Key =
    | NativeBuild | NativeLinux | RootCheck | RootTest
    | CliSmoke | WrapperVersion | DeepDefinitions | DeepRuntime
    | ReleaseContract | ReleaseDryRun | PythonLint | PythonTest | WebTypecheck | WebBuild
    | RustCheck | RustTest | InstallMethods
    | AffectedDryRun | AffectedSelftest | WorkflowYaml | CiSelftest | CiDryRun | YamlParse
    | CheckPackage(name: string) | TestPackage(name: string) | TestFile(file: string)

  predicate IsNativeBuild(k: Key) {
    k == NativeBuild || k == NativeLinux
  }

  /** Tasks that load the native addon when they run. */
  predicate NeedsNative(k: Key) {
    k == RootCheck || k == RootTest || k == CliSmoke || k == WrapperVersion || k == DeepDefinitions ||
    k == DeepRuntime || k.TestPackage? || k.TestFile?
  }

  datatype Cwd = Root | Web | At(dir: string)

  /** A task: its key and the directory it runs in. Its description and command
      are fixed by the key. */
  datatype Task = Task(key: Key, cwd: Cwd)

  ghost predicate UniqueKeys(tasks: seq<Task>) {
    forall i, j :: 0 <= i < j < |tasks| ==> tasks[i].key != tasks[j].key
  }

  function Keys(tasks: seq<Task>): set<Key> {
    if tasks == [] then {} else Keys(tasks[..|tasks| - 1]) + {tasks[|tasks| - 1].key}
  }

  lemma {:induction false} KeysAre(tasks: seq<Task>, k: Key)
    ensures k in Keys(tasks) <==> exists t :: t in tasks && t.key == k
  {
    if tasks != [] {
      KeysAre(tasks[..|tasks| - 1], k);
      assert tasks == tasks[..|tasks| - 1] + [tasks[|tasks| - 1]];
    }
  }

  /** Directory of the first package of a name. */
  function DirOf(packages: seq<Package>, name: string): string {
    if packages == [] then "" else if packages[0].name == name then packages[0].dir else DirOf(packages[1..], name)
  }

  /** The one task a key stands for in a workspace. */
  function TaskFor(k: Key, packages: seq<Package>): Task {
    if k.CheckPackage? || k.TestPackage? then Task(k, At(DirOf(packages, k.name)))
    else if k == WebTypecheck || k == WebBuild then Task(k, Web)
    else Task(k, Root)
  }

  lemma {:induction false} DirOfMember(packages: seq<Package>, p: Package)
    requires DistinctNames(packages) && p in packages
    ensures DirOf(packages, p.name) == p.dir
  {
    if packages[0] != p {
      var i :| 0 < i < |packages| && packages[i] == p;
      assert packages[1..][i - 1] == p;
      DirOfMember(packages[1..], p);
    }
  }

  predicate HasScript(p: Package, script: string) {
    script in p.manifest.scripts && p.manifest.scripts[script] != ""
  }

  // ---------- What the planners ask of a path ----------

  datatype PathFacts = PathFacts(
    doc: bool, full: bool, packageJson: bool, releaseHarness: bool, workflow: bool, ciHarness: bool, workflowHarness: bool,
    github: bool, python: bool, web: bool, rust: bool, install: bool, runtime: bool, wrapper: bool, publish: bool,
    tooling: bool, codeIsh: bool, deepInterview: bool)

  function FactsOf(p: string): PathFacts {
    PathFacts(
      IsDocOrChangelogPath(p), IsFullWorkspacePath(p), p == "package.json", IsReleaseHarnessPath(p), IsWorkflowPath(p),
      IsCiHarnessScriptPath(p), IsWorkflowHarnessPath(p), StartsWith(p, ".github/"), IsPythonPath(p), IsWebPath(p),
      IsRustPath(p), IsInstallPath(p), IsCodingAgentRuntimePath(p), IsUnscopedWrapperPath(p), IsReleasePublishPath(p),
      IsToolingScriptPath(p), IsCodeIshPath(p), IsDeepInterviewPath(p))
  }

  function OwningPackage(path: string, packages: seq<Package>): Option<Package> {
    if packages == [] then None
    else if path == packages[0].dir || StartsWith(path, packages[0].dir + "/") then Some(packages[0])
    else OwningPackage(path, packages[1..])
  }

  /** A file name without a trailing TypeScript or JavaScript extension. */
  function Stem(name: string): string {
    if EndsWith(name, ".tsx") || EndsWith(name, ".jsx") || EndsWith(name, ".mts") || EndsWith(name, ".cts")
    then name[..|name| - 4]
    else if EndsWith(name, ".ts") || EndsWith(name, ".js") then name[..|name| - 3]
    else name
  }

  predicate IsMappedTest(test: string, path: string, packages: seq<Package>) {
    var base, owner := Stem(Basename(path)), OwningPackage(path, packages);
    var scope := if owner.Some? then owner.value.dir + "/" else Dirname(path) + "/";
    base != "" && (Basename(test) == base + ".test.ts" || Basename(test) == base + ".test.tsx") && StartsWith(test, scope)
  }

  function FilterMapped(path: string, packages: seq<Package>, testFiles: seq<string>): seq<string> {
    if testFiles == [] then []
    else (if IsMappedTest(testFiles[0], path, packages) then [testFiles[0]] else [])
         + FilterMapped(path, packages, testFiles[1..])
  }

  function MappedTestsFor(path: string, packages: seq<Package>, testFiles: seq<string>): seq<string> {
    if IsTestFilePath(path) then (if path in testFiles then [path] else [])
    else FilterMapped(path, packages, testFiles)
  }

  /** A workspace as the planners see it: its packages, and per path the facts,
      the owning package and the tests named after it. */
  datatype Workspace = Workspace(
    packages: seq<Package>,
    facts: string -> PathFacts,
    owner: string -> Option<Package>,
    mapped: string -> seq<string>)

  function WorkspaceOf(packages: seq<Package>, testFiles: seq<string>): Workspace {
    Workspace(packages, FactsOf, p => OwningPackage(p, packages), p => MappedTestsFor(p, packages, testFiles))
  }

  /** What the plans rely on: names are distinct and not empty, owners are
      packages, and among the full-workspace files only package.json may change
      as part of a release. */
  ghost predicate LawfulWorkspace(ws: Workspace) {
    && DistinctNames(ws.packages)
    && (forall p :: p in ws.packages ==> p.name != "")
    && (forall path :: ws.owner(path).Some? ==> ws.owner(path).value in ws.packages)
    && (forall path :: ws.facts(path).full && !ws.facts(path).packageJson ==> !ws.facts(path).releaseHarness)
  }

  lemma {:induction false} OwnerIsMember(path: string, packages: seq<Package>)
    ensures OwningPackage(path, packages).Some? ==> OwningPackage(path, packages).value in packages
  {
    if packages != [] {
      OwnerIsMember(path, packages[1..]);
    }
  }

  lemma WorkspaceOfIsLawful(packages: seq<Package>, testFiles: seq<string>)
    requires DistinctNames(packages) && forall p :: p in packages ==> p.name != ""
    ensures LawfulWorkspace(WorkspaceOf(packages, testFiles))
  {
    var ws := WorkspaceOf(packages, testFiles);
    forall path | ws.owner(path).Some? ensures ws.owner(path).value in packages {
      OwnerIsMember(path, packages);
    }
    forall path | ws.facts(path).full && !ws.facts(path).packageJson ensures !ws.facts(path).releaseHarness {
      OnlyPackageJsonIsHarness(path);
    }
  }

  // ---------- The pull-request plan ----------

  /** Keys a path that belongs to a package asks for. */
  function OwnedKeys(f: PathFacts, owner: Package): set<Key> {
    (if HasScript(owner, "check") then {CheckPackage(owner.name)} else {})
    + (if f.runtime then {CliSmoke} else {})
    + (if f.wrapper then {WrapperVersion} else {})
    + (if f.publish then {ReleaseContract, ReleaseDryRun} else {})
  }

  function TestFileKeys(tests: seq<string>): set<Key> {
    set t | t in tests :: TestFile(t)
  }

  /** Keys a path of no special kind asks for: its tests, else its package's
      check and smokes, else the root check. */
  function PackageKeys(ws: Workspace, path: string): set<Key> {
    if ws.mapped(path) != [] then TestFileKeys(ws.mapped(path))
    else if ws.owner(path).Some? then OwnedKeys(ws.facts(path), ws.owner(path).value)
    else if ws.facts(path).codeIsh then {RootCheck} else {}
  }

  /** Keys one relevant path asks for, whatever else changed. */
  function PathKeys(ws: Workspace, path: string): set<Key> {
    var f := ws.facts(path);
    if f.full then {}
    else if f.workflow then {YamlParse, CiSelftest, CiDryRun}
    else if f.ciHarness then {CiSelftest, CiDryRun}
    else if f.python then {PythonLint, PythonTest}
    else if f.web then {WebTypecheck, WebBuild}
    else if f.rust then {RustCheck, RustTest}
    else if f.install then {InstallMethods}
    else PackageKeys(ws, path)
  }

  predicate HarnessOnly(ws: Workspace, paths: seq<string>) {
    (exists p :: p in paths && ws.facts(p).packageJson) && forall p :: p in paths ==> ws.facts(p).releaseHarness
  }

  predicate FullWorkspace(ws: Workspace, paths: seq<string>) {
    (exists p :: p in paths && ws.facts(p).full) && !HarnessOnly(ws, paths)
  }

  function Relevant(ws: Workspace, paths: seq<string>): seq<string> {
    if paths == [] then [] else
    var front, last := Relevant(ws, paths[..|paths| - 1]), paths[|paths| - 1];
    if ws.facts(last).doc then front else front + [last]
  }

  lemma {:induction false} RelevantAre(ws: Workspace, paths: seq<string>, p: string)
    ensures p in Relevant(ws, paths) <==> p in paths && !ws.facts(p).doc
  {
    if paths != [] {
      RelevantAre(ws, paths[..|paths| - 1], p);
      assert paths == paths[..|paths| - 1] + [paths[|paths| - 1]];
    }
  }

  const FULL_KEYS: set<Key> := {RootCheck, NativeLinux, RootTest}

  /** Keys of a plan before a native build is ensured. */
  ghost predicate BaseKey(ws: Workspace, paths: seq<string>, k: Key) {
    || (FullWorkspace(ws, Relevant(ws, paths)) && k in FULL_KEYS)
    || exists p :: p in Relevant(ws, paths) && k in PathKeys(ws, p)
  }

  /** Keys of the plan of a pull request. */
  ghost predicate TargetedKey(ws: Workspace, paths: seq<string>, k: Key) {
    || BaseKey(ws, paths, k)
    || (k == NativeLinux && exists k' :: NeedsNative(k') && BaseKey(ws, paths, k'))
  }

  lemma FullWorkspaceMonotone(ws: Workspace, paths: seq<string>, more: seq<string>)
    requires LawfulWorkspace(ws) && FullWorkspace(ws, paths) && forall p :: p in paths ==> p in more
    ensures FullWorkspace(ws, more)
  {
    var p :| p in paths && ws.facts(p).full;
    assert p in more;
    if HarnessOnly(ws, more) {
      assert ws.facts(p).releaseHarness && ws.facts(p).packageJson;
      assert HarnessOnly(ws, paths);
    }
  }

  /** Adding changed paths never removes a task, even where it turns a release
      change into a full run; the order of the paths plays no part. */
  lemma TargetedMonotone(ws: Workspace, paths: seq<string>, more: seq<string>, k: Key)
    requires LawfulWorkspace(ws) && forall p :: p in paths ==> p in more
    requires TargetedKey(ws, paths, k)
    ensures TargetedKey(ws, more, k)
  {
    forall p ensures p in Relevant(ws, paths) ==> p in Relevant(ws, more) {
      RelevantAre(ws, paths, p);
      RelevantAre(ws, more, p);
    }
    if FullWorkspace(ws, Relevant(ws, paths)) {
      FullWorkspaceMonotone(ws, Relevant(ws, paths), Relevant(ws, more));
    }
    forall k' | BaseKey(ws, paths, k') ensures BaseKey(ws, more, k') {
    }
  }

  /** A planned task that needs the native addon comes with a native build. */
  lemma TargetedNative(ws: Workspace, paths: seq<string>, k: Key)
    requires TargetedKey(ws, paths, k) && NeedsNative(k)
    ensures exists b :: IsNativeBuild(b) && TargetedKey(ws, paths, b)
  {
    assert BaseKey(ws, paths, k);
    assert IsNativeBuild(NativeLinux) && TargetedKey(ws, paths, NativeLinux);
  }
}
