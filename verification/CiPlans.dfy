/** The two planners as they run, building a task map path by path, and the
    split of a plan into matrix shards and the native-build job. */
module CiPlans {
  import opened Options
  import opened CiPaths
  import opened CiPlanner

  // ---------- Task maps ----------

  /** Each key once, with the one task it stands for. */
  ghost predicate Lawful(tasks: seq<Task>, packages: seq<Package>) {
    UniqueKeys(tasks) && forall i :: 0 <= i < |tasks| ==> tasks[i] == TaskFor(tasks[i].key, packages)
  }

  /** An insertion-ordered map from keys to tasks. */
  class TaskMap {
    var entries: seq<Task>
    ghost var keys: set<Key>
    ghost const packages: seq<Package>

    ghost predicate Valid()
      reads this
    {
      keys == Keys(entries) && Lawful(entries, packages)
    }

    constructor (ghost packages: seq<Package>)
      ensures Valid() && keys == {} && entries == [] && this.packages == packages
    {
      entries, keys := [], {};
      this.packages := packages;
    }

    method Has(k: Key) returns (r: bool)
      requires Valid()
      ensures r <==> k in keys
    {
      KeysAre(entries, k);
      for i := 0 to |entries|
        invariant forall j :: 0 <= j < i ==> entries[j].key != k
      {
        if entries[i].key == k {
          return true;
        }
      }
      return false;
    }

    /** Adds a task unless its key is taken. */
    method Add(t: Task)
      requires Valid() && t == TaskFor(t.key, packages)
      modifies this
      ensures Valid() && keys == old(keys) + {t.key}
      ensures entries == if t.key in old(keys) then old(entries) else old(entries) + [t]
    {
      var taken := Has(t.key);
      if !taken {
        KeysAre(entries, t.key);
        entries := entries + [t];
        assert entries[..|entries| - 1] == old(entries);
      }
      keys := keys + {t.key};
    }

    method AddKey(k: Key)
      requires Valid() && !k.CheckPackage? && !k.TestPackage?
      modifies this
      ensures Valid() && keys == old(keys) + {k}
    {
      Add(Task(k, if k == WebTypecheck || k == WebBuild then Web else Root));
    }

    method AddKeyIf(condition: bool, k: Key)
      requires Valid() && !k.CheckPackage? && !k.TestPackage?
      modifies this
      ensures Valid() && keys == old(keys) + If(condition, k)
    {
      if condition {
        AddKey(k);
      }
    }

    /** One native build, if a task needs one and none is there. */
    method EnsureNativeBuild()
      requires Valid()
      modifies this
      ensures Valid() && keys == old(keys) + Lacking(old(keys))
    {
      var needed, present := false, false;
      for i := 0 to |entries|
        invariant needed <==> exists j :: 0 <= j < i && NeedsNative(entries[j].key)
        invariant present <==> exists j :: 0 <= j < i && IsNativeBuild(entries[j].key)
      {
        needed := needed || NeedsNative(entries[i].key);
        present := present || IsNativeBuild(entries[i].key);
      }
      KeysCovered(entries);
      if needed && !present {
        AddKey(NativeLinux);
      }
    }
  }

  /** The native build a set of keys lacks. */
  ghost function Lacking(keys: set<Key>): set<Key> {
    if (exists k :: k in keys && NeedsNative(k)) && !(exists k :: k in keys && IsNativeBuild(k)) then {NativeLinux} else {}
  }

  lemma KeysCovered(tasks: seq<Task>)
    ensures forall i :: 0 <= i < |tasks| ==> tasks[i].key in Keys(tasks)
    ensures forall k :: k in Keys(tasks) ==> exists i :: 0 <= i < |tasks| && tasks[i].key == k
  {
    forall i | 0 <= i < |tasks| ensures tasks[i].key in Keys(tasks) {
      KeysAre(tasks, tasks[i].key);
    }
    forall k | k in Keys(tasks) ensures exists i :: 0 <= i < |tasks| && tasks[i].key == k {
      KeysAre(tasks, k);
    }
  }

  // ---------- The targeted planner ----------

  const FLAG_KEYS: set<Key> := {CiSelftest, CiDryRun, YamlParse}

  function AllPathKeys(ws: Workspace, paths: seq<string>): set<Key> {
    if paths == [] then {} else AllPathKeys(ws, paths[..|paths| - 1]) + PathKeys(ws, paths[|paths| - 1])
  }

  lemma {:induction false} AllPathKeysAre(ws: Workspace, paths: seq<string>, k: Key)
    ensures k in AllPathKeys(ws, paths) <==> exists p :: p in paths && k in PathKeys(ws, p)
  {
    if paths != [] {
      AllPathKeysAre(ws, paths[..|paths| - 1], k);
      assert paths == paths[..|paths| - 1] + [paths[|paths| - 1]];
    }
  }

  method AddTestFiles(m: TaskMap, tests: seq<string>)
    requires m.Valid()
    modifies m
    ensures m.Valid() && m.keys == old(m.keys) + TestFileKeys(tests)
  {
    for i := 0 to |tests|
      invariant m.Valid() && m.keys == old(m.keys) + TestFileKeys(tests[..i])
    {
      m.AddKey(TestFile(tests[i]));
      assert tests[..i + 1] == tests[..i] + [tests[i]];
      assert TestFileKeys(tests[..i + 1]) == TestFileKeys(tests[..i]) + {TestFile(tests[i])};
    }
    assert tests[..|tests|] == tests;
  }

  method AddOwned(m: TaskMap, f: PathFacts, owner: Package)
    requires m.Valid() && DistinctNames(m.packages) && owner in m.packages
    modifies m
    ensures m.Valid() && m.keys == old(m.keys) + OwnedKeys(f, owner)
  {
    if HasScript(owner, "check") {
      DirOfMember(m.packages, owner);
      m.Add(Task(CheckPackage(owner.name), At(owner.dir)));
    }
    assert m.keys == old(m.keys) + If(HasScript(owner, "check"), CheckPackage(owner.name));
    m.AddKeyIf(f.runtime, CliSmoke);
    m.AddKeyIf(f.wrapper, WrapperVersion);
    m.AddKeyIf(f.publish, ReleaseContract);
    m.AddKeyIf(f.publish, ReleaseDryRun);
    OwnedUnion(old(m.keys), f, owner);
  }

  function If(condition: bool, k: Key): set<Key> {
    if condition then {k} else {}
  }

  lemma OwnedUnion(keys: set<Key>, f: PathFacts, owner: Package)
    ensures keys + If(HasScript(owner, "check"), CheckPackage(owner.name)) + If(f.runtime, CliSmoke)
              + If(f.wrapper, WrapperVersion) + If(f.publish, ReleaseContract) + If(f.publish, ReleaseDryRun)
         == keys + OwnedKeys(f, owner)
  {
  }

  method AddPackagePath(m: TaskMap, ws: Workspace, path: string)
    requires m.Valid() && LawfulWorkspace(ws) && m.packages == ws.packages
    modifies m
    ensures m.Valid() && m.keys == old(m.keys) + PackageKeys(ws, path)
    ensures PackageKeys(ws, path) * FLAG_KEYS == {}
  {
    var mapped, owner := ws.mapped(path), ws.owner(path);
    if mapped != [] {
      AddTestFiles(m, mapped);
    } else if owner.Some? {
      AddOwned(m, ws.facts(path), owner.value);
    } else if ws.facts(path).codeIsh {
      m.AddKey(RootCheck);
    }
  }

  method AddPair(m: TaskMap, a: Key, b: Key)
    requires m.Valid() && !a.CheckPackage? && !a.TestPackage? && !b.CheckPackage? && !b.TestPackage?
    requires a !in FLAG_KEYS && b !in FLAG_KEYS
    modifies m
    ensures m.Valid() && m.keys == old(m.keys) + ({a, b} - FLAG_KEYS) && {a, b} * FLAG_KEYS == {}
  {
    m.AddKey(a);
    m.AddKey(b);
  }

  /** The tasks of one path; the self-test and YAML tasks are only noted. */
  method AddPath(m: TaskMap, ws: Workspace, path: string) returns (ci: bool, yaml: bool)
    requires m.Valid() && LawfulWorkspace(ws) && m.packages == ws.packages
    modifies m
    ensures m.Valid() && m.keys == old(m.keys) + (PathKeys(ws, path) - FLAG_KEYS)
    ensures PathKeys(ws, path) * FLAG_KEYS
         == (if ci then {CiSelftest, CiDryRun} else {}) + (if yaml then {YamlParse} else {})
  {
    var f := ws.facts(path);
    ci, yaml := false, false;
    if f.full {
    } else if f.workflow {
      ci, yaml := true, true;
    } else if f.ciHarness {
      ci := true;
    } else if f.python {
      AddPair(m, PythonLint, PythonTest);
    } else if f.web {
      AddPair(m, WebTypecheck, WebBuild);
    } else if f.rust {
      AddPair(m, RustCheck, RustTest);
    } else if f.install {
      m.AddKey(InstallMethods);
    } else {
      AddPackagePath(m, ws, path);
    }
  }

  /** The loop over the relevant paths, and the noted tasks after it. */
  method AddPaths(m: TaskMap, ws: Workspace, relevant: seq<string>)
    requires m.Valid() && LawfulWorkspace(ws) && m.packages == ws.packages
    modifies m
    ensures m.Valid() && m.keys == old(m.keys) + AllPathKeys(ws, relevant)
  {
    var needCi, needYaml := AddEachPath(m, ws, relevant);
    AddNoted(m, needCi, needYaml);
    ghost var asked := AllPathKeys(ws, relevant);
    assert asked == (asked - FLAG_KEYS) + (asked * FLAG_KEYS);
  }

  /** The self-test and the YAML tasks, if any path asked for them. */
  method AddNoted(m: TaskMap, needCi: bool, needYaml: bool)
    requires m.Valid()
    modifies m
    ensures m.Valid()
    ensures m.keys == old(m.keys) + ((if needCi then {CiSelftest, CiDryRun} else {}) + (if needYaml then {YamlParse} else {}))
  {
    m.AddKeyIf(needCi, CiSelftest);
    m.AddKeyIf(needCi, CiDryRun);
    m.AddKeyIf(needYaml, YamlParse);
  }

  method AddEachPath(m: TaskMap, ws: Workspace, relevant: seq<string>) returns (needCi: bool, needYaml: bool)
    requires m.Valid() && LawfulWorkspace(ws) && m.packages == ws.packages
    modifies m
    ensures m.Valid() && m.keys == old(m.keys) + (AllPathKeys(ws, relevant) - FLAG_KEYS)
    ensures AllPathKeys(ws, relevant) * FLAG_KEYS
         == (if needCi then {CiSelftest, CiDryRun} else {}) + (if needYaml then {YamlParse} else {})
  {
    needCi, needYaml := false, false;
    for i := 0 to |relevant|
      invariant m.Valid()
      invariant m.keys == old(m.keys) + (AllPathKeys(ws, relevant[..i]) - FLAG_KEYS)
      invariant AllPathKeys(ws, relevant[..i]) * FLAG_KEYS
             == (if needCi then {CiSelftest, CiDryRun} else {}) + (if needYaml then {YamlParse} else {})
    {
      assert relevant[..i + 1][..i] == relevant[..i];
      var ci, yaml := AddPath(m, ws, relevant[i]);
      needCi, needYaml := needCi || ci, needYaml || yaml;
    }
    assert relevant[..|relevant|] == relevant;
  }

  lemma BaseKeysAre(ws: Workspace, paths: seq<string>, keys: set<Key>)
    requires
      var relevant := Relevant(ws, paths);
      keys == (if FullWorkspace(ws, relevant) then FULL_KEYS else {}) + AllPathKeys(ws, relevant)
    ensures forall k :: k in keys <==> BaseKey(ws, paths, k)
    ensures forall k :: k in keys + Lacking(keys) <==> TargetedKey(ws, paths, k)
  {
    var relevant := Relevant(ws, paths);
    forall k ensures k in keys <==> BaseKey(ws, paths, k) {
      AllPathKeysAre(ws, relevant, k);
    }
    NoNativeBuildPath(ws, relevant);
  }

  /** No path asks for a native build; only a full run brings one itself. */
  lemma {:induction false} NoNativeBuildPath(ws: Workspace, paths: seq<string>)
    ensures forall k :: k in AllPathKeys(ws, paths) ==> !IsNativeBuild(k)
  {
    if paths != [] {
      NoNativeBuildPath(ws, paths[..|paths| - 1]);
    }
  }

  method AddFull(m: TaskMap)
    requires m.Valid()
    modifies m
    ensures m.Valid() && m.keys == old(m.keys) + FULL_KEYS
  {
    m.AddKey(RootCheck);
    m.AddKey(NativeLinux);
    m.AddKey(RootTest);
  }

  /** The plan of a pull request: its keys are the planned ones, each with its
      task. */
  method PlanTargetedTasks(paths: seq<string>, ws: Workspace) returns (tasks: seq<Task>)
    requires LawfulWorkspace(ws)
    ensures Lawful(tasks, ws.packages)
    ensures forall k :: k in Keys(tasks) <==> TargetedKey(ws, paths, k)
  {
    var m := new TaskMap(ws.packages);
    var relevant := Relevant(ws, paths);
    if relevant == [] {
      BaseKeysAre(ws, paths, {});
      return [];
    }
    if FullWorkspace(ws, relevant) {
      AddFull(m);
    }
    AddPaths(m, ws, relevant);
    BaseKeysAre(ws, paths, m.keys);
    m.EnsureNativeBuild();
    tasks := m.entries;
  }

  // ---------- The planner for pushes ----------

  predicate AllPaths(ws: Workspace, paths: seq<string>, f: PathFacts -> bool) {
    paths != [] && forall p :: p in paths ==> f(ws.facts(p))
  }

  predicate SomePath(ws: Workspace, paths: seq<string>, f: PathFacts -> bool) {
    exists p :: p in paths && f(ws.facts(p))
  }

  /** What the planner asks of the paths as a whole. */
  datatype Flags = Flags(
    deepOnly: bool, full: bool, python: bool, web: bool, rust: bool, install: bool, publish: bool, wrapper: bool,
    tooling: bool, native: bool, packaged: bool, harness: bool, workflow: bool)

  function FlagsOf(ws: Workspace, paths: seq<string>): Flags {
    var deepOnly := AllPaths(ws, paths, (f: PathFacts) => f.deepInterview);
    var full := FullWorkspace(ws, paths);
    var wrapper := SomePath(ws, paths, (f: PathFacts) => f.wrapper);
    Flags(
      deepOnly, full, SomePath(ws, paths, (f: PathFacts) => f.python), SomePath(ws, paths, (f: PathFacts) => f.web),
      SomePath(ws, paths, (f: PathFacts) => f.rust), SomePath(ws, paths, (f: PathFacts) => f.install), SomePath(ws, paths, (f: PathFacts) => f.publish), wrapper,
      SomePath(ws, paths, (f: PathFacts) => f.tooling),
      !deepOnly && (SomePath(ws, paths, (f: PathFacts) => f.runtime) || wrapper || full),
      !full && !AllPaths(ws, paths, (f: PathFacts) => f.github) && !AllPaths(ws, paths, (f: PathFacts) => f.workflowHarness),
      SomePath(ws, paths, (f: PathFacts) => f.workflowHarness), SomePath(ws, paths, (f: PathFacts) => f.workflow))
  }

  /** Keys the affected packages ask for. */
  ghost predicate AffectedKey(affected: seq<Package>, k: Key) {
    exists p :: p in affected && AskedBy(p, k)
  }

  predicate AskedBy(p: Package, k: Key) {
    match k
    case NativeLinux => HasScript(p, "test")
    case CheckPackage(name) => p.name == name && HasScript(p, "check")
    case TestPackage(name) => p.name == name && HasScript(p, "test")
    case _ => false
  }

  /** Keys of the builds and of the packages. */
  ghost predicate EarlyKey(fl: Flags, affected: seq<Package>, k: Key) {
    || (fl.native && k == NativeBuild)
    || (fl.full && k in FULL_KEYS)
    || (fl.packaged && AffectedKey(affected, k))
    || (fl.packaged && fl.tooling && (k == RootCheck || (k == NativeLinux && !fl.native)))
  }

  predicate LateKey(fl: Flags, k: Key) {
    match k
    case WrapperVersion => fl.wrapper
    case ReleaseContract => fl.publish
    case ReleaseDryRun => fl.publish
    case PythonLint => fl.python
    case PythonTest => fl.python
    case WebTypecheck => fl.web
    case WebBuild => fl.web
    case RustCheck => fl.rust
    case RustTest => fl.rust
    case InstallMethods => fl.install
    case CliSmoke => fl.native
    case AffectedDryRun => fl.harness
    case AffectedSelftest => fl.harness
    case WorkflowYaml => fl.harness && fl.workflow
    case _ => false
  }

  /** Keys of the plan of a push. */
  ghost predicate PushKey(fl: Flags, affected: seq<Package>, k: Key) {
    if fl.deepOnly then k in {NativeLinux, DeepDefinitions, DeepRuntime}
    else EarlyKey(fl, affected, k) || LateKey(fl, k)
  }

  /** A planned task that needs the native addon comes with a native build. */
  lemma PushNative(ws: Workspace, paths: seq<string>, affected: seq<Package>, k: Key)
    requires PushKey(FlagsOf(ws, paths), affected, k) && NeedsNative(k)
    ensures PushKey(FlagsOf(ws, paths), affected, NativeBuild) || PushKey(FlagsOf(ws, paths), affected, NativeLinux)
  {
    FlaggedNative(FlagsOf(ws, paths), affected, k);
  }

  lemma FlaggedNative(fl: Flags, affected: seq<Package>, k: Key)
    requires !fl.deepOnly && (fl.wrapper || fl.full) ==> fl.native
    requires PushKey(fl, affected, k) && NeedsNative(k)
    ensures PushKey(fl, affected, NativeBuild) || PushKey(fl, affected, NativeLinux)
  {
    if k.TestPackage? && !fl.deepOnly {
      var p :| p in affected && AskedBy(p, k);
      assert AskedBy(p, NativeLinux);
    }
  }

  function Touches(path: string, dir: string): bool {
    path == dir || StartsWith(path, dir + "/")
  }

  /** Packages whose directory holds a changed path. */
  function FindTouched(paths: seq<string>, packages: seq<Package>): seq<Package> {
    if packages == [] then [] else
    var front, last := FindTouched(paths, packages[..|packages| - 1]), packages[|packages| - 1];
    if exists p :: p in paths && Touches(p, last.dir) then front + [last] else front
  }

  lemma {:induction false} TouchedAre(paths: seq<string>, packages: seq<Package>)
    requires DistinctNames(packages)
    ensures DistinctNames(FindTouched(paths, packages))
    ensures forall q :: q in FindTouched(paths, packages) <==> q in packages && exists p :: p in paths && Touches(p, q.dir)
  {
    if packages != [] {
      var front, last := packages[..|packages| - 1], packages[|packages| - 1];
      TouchedAre(paths, front);
      assert packages == front + [last];
      var touched := FindTouched(paths, front);
      forall i | 0 <= i < |touched| ensures touched[i].name != last.name {
        assert touched[i] in front;
      }
    }
  }

  ghost function AffectedKeys(affected: seq<Package>): set<Key> {
    if affected == [] then {} else
    var p := affected[|affected| - 1];
    AffectedKeys(affected[..|affected| - 1])
    + (if HasScript(p, "check") then {CheckPackage(p.name)} else {})
    + (if HasScript(p, "test") then {TestPackage(p.name)} else {})
  }

  lemma {:induction false} AffectedKeysAre(affected: seq<Package>, k: Key)
    ensures k in AffectedKeys(affected) <==> k != NativeLinux && AffectedKey(affected, k)
  {
    if affected != [] {
      var front, p := affected[..|affected| - 1], affected[|affected| - 1];
      AffectedKeysAre(front, k);
      assert affected == front + [p];
      assert AffectedKey(affected, k) <==> AffectedKey(front, k) || AskedBy(p, k);
    }
  }

  method AddAffected(m: TaskMap, affected: seq<Package>)
    requires m.Valid() && DistinctNames(m.packages) && forall p :: p in affected ==> p in m.packages
    modifies m
    ensures m.Valid()
    ensures forall k :: k in m.keys <==> k in old(m.keys) || AffectedKey(affected, k)
  {
    if exists p :: p in affected && HasScript(p, "test") {
      m.AddKey(NativeLinux);
    }
    assert AffectedKey(affected, NativeLinux) <==> exists p :: p in affected && HasScript(p, "test");
    ghost var base := m.keys;
    for i := 0 to |affected|
      invariant m.Valid() && m.keys == base + AffectedKeys(affected[..i])
    {
      var p := affected[i];
      assert affected[..i + 1][..i] == affected[..i];
      DirOfMember(m.packages, p);
      if HasScript(p, "check") {
        m.Add(Task(CheckPackage(p.name), At(p.dir)));
      }
      if HasScript(p, "test") {
        m.Add(Task(TestPackage(p.name), At(p.dir)));
      }
    }
    assert affected[..|affected|] == affected;
    forall k ensures k in AffectedKeys(affected) <==> k != NativeLinux && AffectedKey(affected, k) {
      AffectedKeysAre(affected, k);
    }
  }

  method AddPairIf(m: TaskMap, condition: bool, a: Key, b: Key)
    requires m.Valid() && !a.CheckPackage? && !a.TestPackage? && !b.CheckPackage? && !b.TestPackage?
    modifies m
    ensures m.Valid() && forall k :: k in m.keys <==> k in old(m.keys) || Among(condition, a, b, k)
  {
    m.AddKeyIf(condition, a);
    m.AddKeyIf(condition, b);
  }

  predicate Among(condition: bool, a: Key, b: Key, k: Key) {
    condition && (k == a || k == b)
  }

  /** The tasks of the releases and of the languages. */
  predicate LanguageKey(fl: Flags, k: Key) {
    || Among(fl.wrapper, WrapperVersion, WrapperVersion, k) || Among(fl.publish, ReleaseContract, ReleaseDryRun, k)
    || Among(fl.python, PythonLint, PythonTest, k) || Among(fl.web, WebTypecheck, WebBuild, k)
    || Among(fl.rust, RustCheck, RustTest, k)
  }

  /** The smokes and the planner's own checks. */
  predicate SmokeKey(fl: Flags, k: Key) {
    || Among(fl.install, InstallMethods, InstallMethods, k) || Among(fl.native, CliSmoke, CliSmoke, k)
    || Among(fl.harness, AffectedDryRun, AffectedSelftest, k)
    || Among(fl.harness && fl.workflow, WorkflowYaml, WorkflowYaml, k)
  }

  method AddLanguages(m: TaskMap, fl: Flags)
    requires m.Valid()
    modifies m
    ensures m.Valid() && forall k :: k in m.keys <==> k in old(m.keys) || LanguageKey(fl, k)
  {
    AddPairIf(m, fl.wrapper, WrapperVersion, WrapperVersion);
    AddPairIf(m, fl.publish, ReleaseContract, ReleaseDryRun);
    AddPairIf(m, fl.python, PythonLint, PythonTest);
    AddPairIf(m, fl.web, WebTypecheck, WebBuild);
    AddPairIf(m, fl.rust, RustCheck, RustTest);
  }

  method AddSmokes(m: TaskMap, fl: Flags)
    requires m.Valid()
    modifies m
    ensures m.Valid() && forall k :: k in m.keys <==> k in old(m.keys) || SmokeKey(fl, k)
  {
    AddPairIf(m, fl.install, InstallMethods, InstallMethods);
    AddPairIf(m, fl.native, CliSmoke, CliSmoke);
    AddPairIf(m, fl.harness, AffectedDryRun, AffectedSelftest);
    AddPairIf(m, fl.harness && fl.workflow, WorkflowYaml, WorkflowYaml);
  }

  lemma LateKeyIs(fl: Flags, k: Key)
    ensures LateKey(fl, k) <==> LanguageKey(fl, k) || SmokeKey(fl, k)
  {
    if LanguageKey(fl, k) {
      LanguageKeyIsLate(fl, k);
    }
    if SmokeKey(fl, k) {
      SmokeKeyIsLate(fl, k);
    }
  }

  lemma LanguageKeyIsLate(fl: Flags, k: Key)
    requires LanguageKey(fl, k)
    ensures LateKey(fl, k)
  {
  }

  lemma SmokeKeyIsLate(fl: Flags, k: Key)
    requires SmokeKey(fl, k)
    ensures LateKey(fl, k)
  {
  }

  /** The tasks that depend on flags alone, in the planner's order. */
  method AddLate(m: TaskMap, fl: Flags)
    requires m.Valid()
    modifies m
    ensures m.Valid() && forall k :: k in m.keys <==> k in old(m.keys) || LateKey(fl, k)
  {
    AddLanguages(m, fl);
    AddSmokes(m, fl);
    forall k ensures LateKey(fl, k) <==> LanguageKey(fl, k) || SmokeKey(fl, k) {
      LateKeyIs(fl, k);
    }
  }

  method AddEarly(m: TaskMap, fl: Flags, affected: seq<Package>)
    requires m.Valid() && m.keys == {} && !(fl.full && fl.packaged)
    requires DistinctNames(m.packages) && forall p :: p in affected ==> p in m.packages
    modifies m
    ensures m.Valid() && forall k :: k in m.keys <==> EarlyKey(fl, affected, k)
  {
    if fl.native {
      m.AddKey(NativeBuild);
    }
    if fl.full {
      AddFull(m);
    } else if fl.packaged {
      AddAffected(m, affected);
      if fl.tooling {
        AddRootCheck(m);
      }
    }
  }

  /** The root check, and a native build for it unless there is one. */
  method AddRootCheck(m: TaskMap)
    requires m.Valid()
    modifies m
    ensures m.Valid()
    ensures m.keys == old(m.keys) + {RootCheck} + if NativeBuild in old(m.keys) || NativeLinux in old(m.keys) then {} else {NativeLinux}
  {
    m.AddKey(RootCheck);
    assert NeedsNative(RootCheck) && IsNativeBuild(NativeBuild) && IsNativeBuild(NativeLinux);
    m.EnsureNativeBuild();
  }

  method AddDeep(m: TaskMap)
    requires m.Valid() && m.keys == {}
    modifies m
    ensures m.Valid() && m.keys == {NativeLinux, DeepDefinitions, DeepRuntime}
  {
    m.AddKey(NativeLinux);
    m.AddKey(DeepDefinitions);
    m.AddKey(DeepRuntime);
  }

  /** The plan of a push: its keys are the planned ones over the packages the
      changes affect, each with its task. */
  method PlanTasks(paths: seq<string>, ws: Workspace) returns (tasks: seq<Task>, affected: seq<Package>)
    requires LawfulWorkspace(ws)
    ensures Lawful(tasks, ws.packages)
    ensures forall p :: p in affected ==> p in ws.packages
    ensures LeastClosed(Names(affected), Names(FindTouched(paths, ws.packages)), ws.packages)
    ensures forall k :: k in Keys(tasks) <==> PushKey(FlagsOf(ws, paths), affected, k)
  {
    var m := new TaskMap(ws.packages);
    var touched := FindTouched(paths, ws.packages);
    TouchedAre(paths, ws.packages);
    ghost var enqueued;
    affected, enqueued := ExpandWithDependents(touched, ws.packages);
    var fl := FlagsOf(ws, paths);
    if fl.deepOnly {
      AddDeep(m);
      return m.entries, affected;
    }
    AddEarly(m, fl, affected);
    AddLate(m, fl);
    tasks := m.entries;
  }

  // ---------- The matrix ----------

  /** Keys of the shards: every task that is no native build. */
  function Shards(tasks: seq<Task>): seq<Key> {
    if tasks == [] then [] else
    var front, last := Shards(tasks[..|tasks| - 1]), tasks[|tasks| - 1];
    if IsNativeBuild(last.key) then front else front + [last.key]
  }

  /** Tasks of the native-build job. */
  function NativeTasks(tasks: seq<Task>): seq<Task> {
    if tasks == [] then [] else
    var front, last := NativeTasks(tasks[..|tasks| - 1]), tasks[|tasks| - 1];
    if IsNativeBuild(last.key) then front + [last] else front
  }

  /** The task a shard runs: the first planned one of its key. */
  function RunSingle(tasks: seq<Task>, k: Key): Option<Task> {
    if tasks == [] then None else if tasks[0].key == k then Some(tasks[0]) else RunSingle(tasks[1..], k)
  }

  function RunShards(tasks: seq<Task>, shards: seq<Key>): seq<Option<Task>> {
    seq(|shards|, i requires 0 <= i < |shards| => RunSingle(tasks, shards[i]))
  }

  function AsRun(tasks: seq<Task>): seq<Option<Task>> {
    seq(|tasks|, i requires 0 <= i < |tasks| => Some(tasks[i]))
  }

  lemma {:induction false} RunSingleFinds(tasks: seq<Task>, i: nat)
    requires UniqueKeys(tasks) && i < |tasks|
    ensures RunSingle(tasks, tasks[i].key) == Some(tasks[i])
  {
    if i > 0 {
      RunSingleFinds(tasks[1..], i - 1);
    }
  }

  lemma {:induction false} SplitRuns(tasks: seq<Task>, n: nat)
    requires UniqueKeys(tasks) && n <= |tasks|
    ensures multiset(AsRun(NativeTasks(tasks[..n]))) + multiset(RunShards(tasks, Shards(tasks[..n]))) == multiset(AsRun(tasks[..n]))
  {
    if n > 0 {
      SplitRuns(tasks, n - 1);
      assert tasks[..n] == tasks[..n - 1] + [tasks[n - 1]];
      SplitRunsStep(tasks, tasks[..n - 1], tasks[n - 1]);
      RunSingleFinds(tasks, n - 1);
    }
  }

  lemma SplitRunsStep(tasks: seq<Task>, front: seq<Task>, last: Task)
    ensures AsRun(front + [last]) == AsRun(front) + [Some(last)]
    ensures AsRun(NativeTasks(front + [last]))
         == AsRun(NativeTasks(front)) + if IsNativeBuild(last.key) then [Some(last)] else []
    ensures RunShards(tasks, Shards(front + [last]))
         == RunShards(tasks, Shards(front)) + if IsNativeBuild(last.key) then [] else [RunSingle(tasks, last.key)]
  {
    assert (front + [last])[..|front|] == front;
  }

  /** The native-build job and the shards together run every planned task
      exactly once. */
  lemma EachTaskRunsOnce(tasks: seq<Task>)
    requires UniqueKeys(tasks)
    ensures multiset(AsRun(NativeTasks(tasks))) + multiset(RunShards(tasks, Shards(tasks))) == multiset(AsRun(tasks))
  {
    SplitRuns(tasks, |tasks|);
    assert tasks[..|tasks|] == tasks;
  }
}
