/** The `getopts` builtin: one option per call, with the parse position kept in
    shell variables between calls. */
module Getopts {
  import opened Options
  import opened Decimal

  type Env = map<string, string>

  const OPTIND := "OPTIND"
  const OPTARG := "OPTARG"
  const NEXT_CHAR := "__GETOPTS_NEXT_CHAR"
  const LAST_OPTIND := "__GETOPTS_LAST_OPTIND"

  function Lookup(env: Env, name: string): Option<string> {
    if name in env then Some(env[name]) else None
  }

  // ---------- The option string ----------

  datatype OptionSpec = OptionSpec(defs: map<char, bool>, silent: bool)

  function FirstIndex(s: string, c: char): (i: nat)
    requires c in s
    ensures i < |s| && s[i] == c
    ensures forall m :: 0 <= m < i ==> s[m] != c
  {
    if s[0] == c then 0 else
    assert s == [s[0]] + s[1..];
    1 + FirstIndex(s[1..], c)
  }

  /** An option takes an argument when a colon follows its first mention. */
  function TakesArgument(s: string, c: char): bool
    requires c in s
  {
    var i := FirstIndex(s, c);
    i + 1 < |s| && s[i + 1] == ':'
  }

  function SpecOf(s: string): OptionSpec {
    OptionSpec(map c | c in s && c != ':' :: TakesArgument(s, c), s != [] && s[0] == ':')
  }

  // ---------- One call ----------

  datatype Result = Result(value: string, optarg: Option<string>, optind: nat, success: bool)

  predicate IsOptionWord(arg: string) {
    arg != [] && arg[0] == '-' && arg != "--" && arg != "-"
  }

  function OptindOf(env: Env): int {
    match Lookup(env, OPTIND)
    case None => 1
    case Some(s) => ParseI32(s).GetOr(1)
  }

  function LastOptindOf(env: Env): Option<int> {
    match Lookup(env, LAST_OPTIND)
    case None => None
    case Some(s) => ParseI32(s)
  }

  function SavedChar(env: Env): nat {
    match Lookup(env, NEXT_CHAR)
    case None => 1
    case Some(s) => ParseUsize(s).GetOr(1)
  }

  function ArgumentOf(spec: OptionSpec, c: char, args: seq<string>, index: nat, at: nat): (r: (string, Option<string>, nat))
    requires 1 <= index <= |args| && at < |args[index - 1]|
  {
    if at + 1 == |args[index - 1]| then
      if index >= |args| then
        (if spec.silent then (":", Some([c]), index) else ("?", None, index))
      else ([c], Some(args[index]), index + 1)
    else ([c], Some(args[index - 1][at + 1..]), index)
  }

  /** The next option at a 1-based argument position. The saved character index
      is reset when it lies beyond the argument; an option word has at least
      two characters, so position 1 always exists. */
  function ParseNextOption(env: Env, spec: OptionSpec, args: seq<string>, index: nat): (Env, Result)
    requires 1 <= index
  {
    if index > |args| then (env, Result("?", None, |args| + 1, false))
    else
      var arg := args[index - 1];
      if !IsOptionWord(arg) then
        (env, Result("?", None, if arg == "--" then index + 1 else index, false))
      else
        var at := if SavedChar(env) < |arg| then SavedChar(env) else 1;
        var c := arg[at];
        if c in spec.defs && spec.defs[c] then
          var (value, optarg, index') := ArgumentOf(spec, c, args, index, at);
          (env - {NEXT_CHAR}, Result(value, optarg, index' + 1, true))
        else
          var (value, optarg) := if c in spec.defs then ([c], None)
                                 else ("?", if spec.silent then Some([c]) else None);
          if at + 1 == |arg| then (env - {NEXT_CHAR}, Result(value, optarg, index + 1, true))
          else (env[NEXT_CHAR := NatToString(at + 1)], Result(value, optarg, index, true))
  }

  function UpdateVariables(env: Env, name: string, r: Result): Env {
    var env1 := env[name := r.value];
    var env2 := if r.optarg.Some? then env1[OPTARG := r.optarg.value] else env1 - {OPTARG};
    env2[OPTIND := NatToString(r.optind)][LAST_OPTIND := NatToString(r.optind)]
  }

  predicate ValidVariableName(s: string) {
    && s != []
    && (IsAlpha(s[0]) || s[0] == '_')
    && forall i :: 1 <= i < |s| ==> IsAlpha(s[i]) || '0' <= s[i] <= '9' || s[i] == '_'
  }

  predicate IsAlpha(c: char) {
    'a' <= c <= 'z' || 'A' <= c <= 'Z'
  }

  function Max(a: int, b: int): int {
    if a < b then b else a
  }

  /** Variables and exit code after one call. */
  function Execute(env: Env, options: string, name: string, args: seq<string>): (Env, nat) {
    if !ValidVariableName(name) then (env, 1)
    else
      var env1 := if LastOptindOf(env) != Some(OptindOf(env)) then env - {NEXT_CHAR} else env;
      var (env2, r) := ParseNextOption(env1, SpecOf(options), args, Max(OptindOf(env), 1));
      (UpdateVariables(env2, name, r), if r.success then 0 else 1)
  }

  // ---------- The reference: a one-shot parse of the argument list ----------

  datatype Emission = Emission(value: string, optarg: Option<string>)

  /** Options from argument `i` on, and the index of the first operand. */
  function ScanArgs(spec: OptionSpec, args: seq<string>, i: nat): (r: (seq<Emission>, nat))
    requires i <= |args|
    ensures i <= r.1 <= |args|
    decreases |args| - i, 0
  {
    if i == |args| then ([], i)
    else if args[i] == "--" then ([], i + 1)
    else if !IsOptionWord(args[i]) then ([], i)
    else ScanCluster(spec, args, i, 1)
  }

  /** ... and from character `j` of the option cluster `args[i]` on. */
  function ScanCluster(spec: OptionSpec, args: seq<string>, i: nat, j: nat): (r: (seq<Emission>, nat))
    requires i < |args| && j < |args[i]|
    ensures i <= r.1 <= |args|
    decreases |args| - i - 1, |args[i]| - j
  {
    var c, last := args[i][j], j + 1 == |args[i]|;
    if c !in spec.defs then
      var e := Emission("?", if spec.silent then Some([c]) else None);
      Emit(e, if last then ScanArgs(spec, args, i + 1) else ScanCluster(spec, args, i, j + 1))
    else if !spec.defs[c] then
      Emit(Emission([c], None), if last then ScanArgs(spec, args, i + 1) else ScanCluster(spec, args, i, j + 1))
    else if !last then Emit(Emission([c], Some(args[i][j + 1..])), ScanArgs(spec, args, i + 1))
    else if i + 1 < |args| then Emit(Emission([c], Some(args[i + 1])), ScanArgs(spec, args, i + 2))
    else if spec.silent then Emit(Emission(":", Some([c])), ScanArgs(spec, args, i + 1))
    else Emit(Emission("?", None), ScanArgs(spec, args, i + 1))
  }

  function Emit(e: Emission, rest: (seq<Emission>, nat)): (seq<Emission>, nat) {
    ([e] + rest.0, rest.1)
  }

  // ---------- Repeated calls ----------

  /** Where the call for 1-based argument `index` and saved character `saved`
      starts: argument, and character in it. */
  function PositionAt(args: seq<string>, index: nat, saved: nat): (p: (nat, nat))
    requires 1 <= index
    ensures p.0 <= |args|
    ensures p.0 < |args| && IsOptionWord(args[p.0]) ==> p.1 < |args[p.0]|
  {
    if index > |args| then (|args|, 1)
    else (index - 1, if IsOptionWord(args[index - 1]) && saved >= |args[index - 1]| then 1 else saved)
  }

  function SavedFor(env: Env): nat {
    if LastOptindOf(env) == Some(OptindOf(env)) then SavedChar(env) else 1
  }

  function Position(env: Env, args: seq<string>): (nat, nat) {
    PositionAt(args, Max(OptindOf(env), 1), SavedFor(env))
  }

  /** What a one-shot parse from there on yields. */
  function ScanFrom(spec: OptionSpec, args: seq<string>, p: (nat, nat)): (seq<Emission>, nat)
    requires p.0 <= |args|
    requires p.0 < |args| && IsOptionWord(args[p.0]) ==> p.1 < |args[p.0]|
  {
    if p.0 < |args| && IsOptionWord(args[p.0]) then ScanCluster(spec, args, p.0, p.1) else ScanArgs(spec, args, p.0)
  }

  /** The argument list and its words fit the machine integers, and the target
      is none of the variables getopts keeps its state in. */
  predicate Admissible(name: string, args: seq<string>) {
    && ValidVariableName(name)
    && name != OPTIND && name != OPTARG && name != NEXT_CHAR && name != LAST_OPTIND
    && |args| + 1 <= I32_MAX
    && forall i :: 0 <= i < |args| ==> |args[i]| <= USIZE_MAX
  }

  /** What a script sees of one call. */
  function Seen(env: Env, name: string): Option<Emission> {
    if name in env then Some(Emission(env[name], Lookup(env, OPTARG))) else None
  }

  /** Lexicographic measure of what is left: arguments, then characters. */
  ghost predicate Closer(args: seq<string>, p: (nat, nat), q: (nat, nat)) {
    p.0 > q.0 || (p.0 == q.0 < |args| && p.1 > q.1)
  }

  lemma FreshArgument(spec: OptionSpec, args: seq<string>, i: nat)
    requires i <= |args|
    ensures ScanFrom(spec, args, PositionAt(args, i + 1, 1)) == ScanArgs(spec, args, i)
  {
  }

  /** A parse that leaves OPTIND alone is inside a cluster and moves to its
      next character. */
  lemma ParseWithinWord(env: Env, spec: OptionSpec, args: seq<string>, index: nat)
    requires 1 <= index <= |args| && IsOptionWord(args[index - 1])
    requires |args[index - 1]| <= USIZE_MAX
    requires ParseNextOption(env, spec, args, index).1.optind == index
    ensures
      var (env', r) := ParseNextOption(env, spec, args, index);
      var (i, j) := PositionAt(args, index, SavedChar(env));
      && r.success && PositionAt(args, index, SavedChar(env')) == (i, j + 1)
      && ScanCluster(spec, args, i, j) == Emit(Emission(r.value, r.optarg), ScanCluster(spec, args, i, j + 1))
  {
    var (_, at) := PositionAt(args, index, SavedChar(env));
    ParseBack(at + 1);
  }

  /** A parse that changes OPTIND is done with the word and starts the next. */
  lemma ParsePastWord(env: Env, spec: OptionSpec, args: seq<string>, index: nat)
    requires 1 <= index <= |args| && IsOptionWord(args[index - 1])
    requires ParseNextOption(env, spec, args, index).1.optind != index
    ensures
      var (env', r) := ParseNextOption(env, spec, args, index);
      var (i, j) := PositionAt(args, index, SavedChar(env));
      && r.success && index < r.optind <= |args| + 1 && SavedChar(env') == 1
      && ScanCluster(spec, args, i, j) == Emit(Emission(r.value, r.optarg), ScanArgs(spec, args, r.optind - 1))
  {
  }

  /** One parse yields the head of what remains and moves on. */
  lemma ParseStep(env: Env, spec: OptionSpec, args: seq<string>, index: nat)
    requires 1 <= index
    requires forall i :: 0 <= i < |args| ==> |args[i]| <= USIZE_MAX
    ensures
      var (env', r) := ParseNextOption(env, spec, args, index);
      var p := PositionAt(args, index, SavedChar(env));
      var (emissions, operand) := ScanFrom(spec, args, p);
      && 1 <= r.optind <= |args| + 1
      && var p' := PositionAt(args, r.optind, SavedChar(env'));
         if r.success
         then (emissions, operand) == Emit(Emission(r.value, r.optarg), ScanFrom(spec, args, p')) && Closer(args, p', p)
         else emissions == [] && r.value == "?" && r.optarg == None && r.optind == operand + 1
  {
    if index <= |args| && IsOptionWord(args[index - 1]) {
      var r := ParseNextOption(env, spec, args, index).1;
      if r.optind == index {
        ParseWithinWord(env, spec, args, index);
      } else {
        ParsePastWord(env, spec, args, index);
        FreshArgument(spec, args, r.optind - 1);
      }
    }
  }

  lemma AfterUpdate(env: Env, name: string, args: seq<string>, r: Result)
    requires Admissible(name, args) && r.optind <= |args| + 1
    ensures
      var env' := UpdateVariables(env, name, r);
      && OptindOf(env') == r.optind && LastOptindOf(env') == Some(r.optind)
      && SavedChar(env') == SavedChar(env)
      && Seen(env', name) == Some(Emission(r.value, r.optarg))
  {
    ParseBack(r.optind);
  }

  /** One call emits the head of what remains and moves on, or ends the loop
      with OPTIND at the first operand. */
  lemma CallStep(env: Env, options: string, name: string, args: seq<string>)
    requires Admissible(name, args)
    ensures
      var (env', code) := Execute(env, options, name, args);
      var spec := SpecOf(options);
      var (emissions, operand) := ScanFrom(spec, args, Position(env, args));
      && 1 <= OptindOf(env') <= |args| + 1
      && if code == 0 then
           && emissions != [] && Seen(env', name) == Some(emissions[0])
           && ScanFrom(spec, args, Position(env', args)) == (emissions[1..], operand)
           && Closer(args, Position(env', args), Position(env, args))
         else
           && emissions == [] && Seen(env', name) == Some(Emission("?", None))
           && OptindOf(env') == operand + 1
  {
    var spec, index := SpecOf(options), Max(OptindOf(env), 1);
    var env1 := if LastOptindOf(env) != Some(OptindOf(env)) then env - {NEXT_CHAR} else env;
    assert SavedChar(env1) == SavedFor(env);
    var (env2, r) := ParseNextOption(env1, spec, args, index);
    ParseStep(env1, spec, args, index);
    AfterUpdate(env2, name, args, r);
  }

  // ---------- Main results ----------

  ghost function CharsLeft(args: seq<string>, p: (nat, nat)): nat {
    if p.0 < |args| && p.1 < |args[p.0]| then |args[p.0]| - p.1 else 0
  }

  /** `while getopts options name args`: the emissions of the successful calls,
      and the variables after the last. The measure shows the loop ends. */
  ghost function Loop(env: Env, options: string, name: string, args: seq<string>): (seq<Emission>, Env)
    requires Admissible(name, args)
    decreases |args| - Position(env, args).0, CharsLeft(args, Position(env, args))
  {
    CallStep(env, options, name, args);
    var (env', code) := Execute(env, options, name, args);
    if code != 0 then ([], env')
    else
      var (emissions, last) := Loop(env', options, name, args);
      ([Seen(env', name).value] + emissions, last)
  }

  /** From any variables, the loop emits what a one-shot parse from its position
      yields, and OPTIND ends at the first operand. */
  lemma {:induction false} LoopIsScan(env: Env, options: string, name: string, args: seq<string>)
    requires Admissible(name, args)
    ensures
      var (emissions, last) := Loop(env, options, name, args);
      var (scanned, operand) := ScanFrom(SpecOf(options), args, Position(env, args));
      emissions == scanned && OptindOf(last) == operand + 1 && operand <= |args|
    decreases |args| - Position(env, args).0, CharsLeft(args, Position(env, args))
  {
    CallStep(env, options, name, args);
    var (env', code) := Execute(env, options, name, args);
    if code == 0 {
      LoopIsScan(env', options, name, args);
    }
  }

  /** The operands start past `--`, at a word that is no option, or nowhere. */
  lemma {:induction false} OperandsStart(spec: OptionSpec, args: seq<string>, p: (nat, nat))
    requires p.0 <= |args|
    requires p.0 < |args| && IsOptionWord(args[p.0]) ==> p.1 < |args[p.0]|
    ensures
      var operand := ScanFrom(spec, args, p).1;
      && p.0 <= operand <= |args|
      && (operand == |args| || !IsOptionWord(args[operand]) || (operand > 0 && args[operand - 1] == "--"))
    decreases |args| - p.0, CharsLeft(args, p)
  {
    var (i, j) := p;
    if i < |args| && IsOptionWord(args[i]) {
      var c, last := args[i][j], j + 1 == |args[i]|;
      var takes := c in spec.defs && spec.defs[c];
      if takes && last && i + 1 < |args| {
        OperandsStartFresh(spec, args, i + 2);
      } else if takes || last {
        OperandsStartFresh(spec, args, i + 1);
      } else {
        OperandsStart(spec, args, (i, j + 1));
      }
    }
  }

  lemma {:induction false} OperandsStartFresh(spec: OptionSpec, args: seq<string>, i: nat)
    requires 0 < i <= |args|
    ensures
      var operand := ScanArgs(spec, args, i).1;
      && i <= operand <= |args|
      && (operand == |args| || !IsOptionWord(args[operand]) || (operand > 0 && args[operand - 1] == "--"))
    decreases |args| - i, if i < |args| then |args[i]| else 0
  {
    FreshArgument(spec, args, i);
    if i < |args| && IsOptionWord(args[i]) {
      OperandsStart(spec, args, (i, 1));
    }
  }

  /** A loop started without getopts state parses the whole argument list. */
  lemma FreshLoopIsScan(env: Env, options: string, name: string, args: seq<string>)
    requires Admissible(name, args) && OptindOf(env) <= 1 && SavedFor(env) == 1
    ensures
      var (emissions, last) := Loop(env, options, name, args);
      var (scanned, operand) := ScanArgs(SpecOf(options), args, 0);
      emissions == scanned && OptindOf(last) == operand + 1 && operand <= |args|
  {
    LoopIsScan(env, options, name, args);
    FreshArgument(SpecOf(options), args, 0);
  }

  /** A saved character index points into the current option word. */
  predicate SavedInRange(env: Env, args: seq<string>) {
    SavedFor(env) != 1 ==>
      var index := Max(OptindOf(env), 1);
      index <= |args| && IsOptionWord(args[index - 1]) && 1 < SavedFor(env) < |args[index - 1]|
  }

  /** Every call leaves OPTIND and its record equal and in range, and any saved
      index inside the word OPTIND names. */
  lemma CallKeepsRange(env: Env, options: string, name: string, args: seq<string>)
    requires Admissible(name, args) && SavedInRange(env, args)
    ensures
      var env' := Execute(env, options, name, args).0;
      && 1 <= OptindOf(env') <= |args| + 1
      && LastOptindOf(env') == Some(OptindOf(env'))
      && SavedInRange(env', args)
  {
    var spec, index := SpecOf(options), Max(OptindOf(env), 1);
    var env1 := if LastOptindOf(env) != Some(OptindOf(env)) then env - {NEXT_CHAR} else env;
    assert SavedChar(env1) == SavedFor(env);
    var (env2, r) := ParseNextOption(env1, spec, args, index);
    ParseKeepsRange(env1, spec, args, index);
    AfterUpdate(env2, name, args, r);
  }

  /** An index into a word that is not its first option lies inside an option word. */
  predicate InWord(args: seq<string>, index: nat, saved: nat)
    requires 1 <= index
  {
    saved != 1 ==> index <= |args| && IsOptionWord(args[index - 1]) && 1 < saved < |args[index - 1]|
  }

  lemma ParseKeepsRange(env: Env, spec: OptionSpec, args: seq<string>, index: nat)
    requires 1 <= index && InWord(args, index, SavedChar(env))
    requires forall i :: 0 <= i < |args| ==> |args[i]| <= USIZE_MAX
    ensures
      var (env', r) := ParseNextOption(env, spec, args, index);
      1 <= r.optind <= |args| + 1 && InWord(args, r.optind, SavedChar(env'))
  {
    ParseStep(env, spec, args, index);
    if index <= |args| && IsOptionWord(args[index - 1]) {
      if ParseNextOption(env, spec, args, index).1.optind == index {
        ParseWithinWord(env, spec, args, index);
      } else {
        ParsePastWord(env, spec, args, index);
      }
    }
  }

  /** After a call, writing OPTIND restarts at that argument exactly when the
      value differs from the one getopts left, or no cluster is open. */
  lemma WritingOptind(env: Env, args: seq<string>, n: nat)
    requires LastOptindOf(env) == Some(OptindOf(env)) && SavedInRange(env, args) && n <= I32_MAX
    ensures Position(env[OPTIND := NatToString(n)], args) == PositionAt(args, Max(n, 1), 1)
       <==> n != OptindOf(env) || SavedFor(env) == 1
  {
    ParseBack(n);
    var env' := env[OPTIND := NatToString(n)];
    assert OptindOf(env') == n && LastOptindOf(env') == LastOptindOf(env) && SavedChar(env') == SavedChar(env);
  }

  lemma ClusterOfTwo()
    ensures
      var spec := SpecOf("ab");
      && IsOptionWord("-ab") && 'a' in spec.defs && 'b' in spec.defs && !spec.defs['a'] && !spec.defs['b']
  {
    assert FirstIndex("ab", 'a') == 0 && FirstIndex("ab", 'b') == 1;
  }

  lemma FirstOfTwo()
    ensures Execute(map[], "ab", "o", ["-ab"]).0 == map["o" := "a", OPTIND := "1", LAST_OPTIND := "1", NEXT_CHAR := "2"]
  {
    ClusterOfTwo();
    ParseBack(1);
    ParseBack(2);
  }

  lemma SecondOfTwo(env: Env)
    requires env == map["o" := "a", OPTIND := "1", LAST_OPTIND := "1", NEXT_CHAR := "2"]
    ensures Seen(Execute(env, "ab", "o", ["-ab"]).0, "o") == Some(Emission("b", None))
  {
    ClusterOfTwo();
    ParseBack(1);
    ParseBack(2);
  }

  /** `OPTIND=1` between the two options of `-ab` does not restart the parse:
      the second call still reports `b`. */
  lemma RestartIgnoredExample()
    ensures
      var args := ["-ab"];
      var env1 := Execute(map[], "ab", "o", args).0;
      var env2 := Execute(env1[OPTIND := "1"], "ab", "o", args).0;
      Seen(env1, "o") == Some(Emission("a", None)) && Seen(env2, "o") == Some(Emission("b", None))
  {
    FirstOfTwo();
    SecondOfTwo(Execute(map[], "ab", "o", ["-ab"]).0[OPTIND := "1"]);
  }

  // ---------- The builtin as it runs ----------

  lemma FirstIndexUnique(s: string, c: char, k: nat)
    requires k < |s| && s[k] == c && forall m :: 0 <= m < k ==> s[m] != c
    ensures FirstIndex(s, c) == k
  {
  }

  /** One more character of the option string decides about at most one option:
      the one whose first mention it follows. */
  lemma TakesArgumentSnoc(s: string, x: char, c: char)
    requires c in s
    ensures FirstIndex(s + [x], c) == FirstIndex(s, c)
    ensures TakesArgument(s + [x], c) == (TakesArgument(s, c) || (FirstIndex(s, c) == |s| - 1 && x == ':'))
  {
    FirstIndexUnique(s + [x], c, FirstIndex(s, c));
  }

  /** The definitions of a prefix of the option string. */
  function DefsOf(s: string): map<char, bool> {
    map c | c in s && c != ':' :: TakesArgument(s, c)
  }

  /** The option whose argument colon may still come: the last mention but for
      colons, if it is a first mention. */
  ghost predicate LastIs(s: string, last: Option<char>) {
    && (last.Some? ==> (
          && last.value in s && last.value != ':'
          && forall k :: FirstIndex(s, last.value) < k < |s| ==> s[k] == ':'))
    && (s != [] && s[|s| - 1] != ':' && FirstIndex(s, s[|s| - 1]) == |s| - 1 ==> last == Some(s[|s| - 1]))
  }

  lemma TakesArgumentAtColon(s: string, last: Option<char>, c: char)
    requires LastIs(s, last) && c in s && c != ':'
    ensures TakesArgument(s + [':'], c) == (TakesArgument(s, c) || last == Some(c))
  {
    TakesArgumentSnoc(s, ':', c);
    var f := FirstIndex(s, c);
    if last == Some(c) && f + 1 < |s| {
      assert s[f + 1] == ':';
    }
  }

  lemma DefsAtColon(s: string, last: Option<char>)
    requires LastIs(s, last)
    ensures DefsOf(s + [':']) == if last.Some? then DefsOf(s)[last.value := true] else DefsOf(s)
    ensures LastIs(s + [':'], last)
  {
    forall c | c in s && c != ':' ensures TakesArgument(s + [':'], c) == (TakesArgument(s, c) || last == Some(c)) {
      TakesArgumentAtColon(s, last, c);
    }
    if last.Some? {
      TakesArgumentSnoc(s, ':', last.value);
    }
  }

  lemma DefsAtKnown(s: string, x: char)
    requires x != ':' && x in s
    ensures DefsOf(s + [x]) == DefsOf(s) && LastIs(s + [x], None)
  {
    forall c | c in s ensures TakesArgument(s + [x], c) == TakesArgument(s, c) {
      TakesArgumentSnoc(s, x, c);
    }
    TakesArgumentSnoc(s, x, x);
  }

  lemma DefsAtNew(s: string, x: char)
    requires x != ':' && x !in s
    ensures DefsOf(s + [x]) == DefsOf(s)[x := false] && LastIs(s + [x], Some(x))
  {
    forall c | c in s ensures TakesArgument(s + [x], c) == TakesArgument(s, c) {
      TakesArgumentSnoc(s, x, c);
    }
    FirstIndexUnique(s + [x], x, |s|);
  }

  method ParseOptionSpec(spec: string) returns (r: OptionSpec)
    ensures r == SpecOf(spec)
  {
    var defs: map<char, bool> := map[];
    var silent, last := false, None;
    for i := 0 to |spec|
      invariant defs == DefsOf(spec[..i])
      invariant LastIs(spec[..i], last)
      invariant silent == (i > 0 && spec[0] == ':')
    {
      var c := spec[i];
      assert spec[..i + 1] == spec[..i] + [c];
      if i > 0 && spec[0] != ':' {
        assert spec[..i][0] in defs;
      }
      if c == ':' {
        DefsAtColon(spec[..i], last);
        if last.Some? {
          defs := defs[last.value := true];
        } else if defs == map[] {
          silent := true;
        }
      } else {
        if c !in defs {
          DefsAtNew(spec[..i], c);
          defs := defs[c := false];
          last := Some(c);
        } else {
          DefsAtKnown(spec[..i], c);
          last := None;
        }
      }
    }
    assert spec[..|spec|] == spec;
    r := OptionSpec(defs, silent);
  }

  class Shell {
    var env: Env
    var positional: seq<string>

    method ResolveOptionArgument(spec: OptionSpec, c: char, args: seq<string>, at: nat, isLast: bool, index: nat)
      returns (value: string, optarg: Option<string>, index': nat)
      requires 1 <= index <= |args| && at < |args[index - 1]| && isLast == (at + 1 == |args[index - 1]|)
      ensures (value, optarg, index') == ArgumentOf(spec, c, args, index, at)
    {
      if isLast {
        if index >= |args| {
          if spec.silent {
            return ":", Some([c]), index;
          }
          return "?", None, index;
        }
        index' := index + 1;
        return [c], Some(args[index' - 1]), index';
      }
      return [c], Some(args[index - 1][at + 1..]), index;
    }

    method ParseNext(spec: OptionSpec, args: seq<string>, nextIndex: nat) returns (r: Result)
      requires 1 <= nextIndex
      modifies this`env
      ensures (env, r) == ParseNextOption(old(env), spec, args, nextIndex)
    {
      var index := nextIndex;
      if index > |args| {
        return Result("?", None, |args| + 1, false);
      }
      var arg := args[index - 1];
      if arg == [] || arg[0] != '-' || arg == "--" || arg == "-" {
        return Result("?", None, if arg == "--" then index + 1 else index, false);
      }
      var at := SavedChar(env);
      if at >= |arg| {
        at := 1;
      }
      var c := arg[at];
      var isLast := at == |arg| - 1;
      var value, optarg := [c], None;
      if c in spec.defs {
        if spec.defs[c] {
          value, optarg, index := ResolveOptionArgument(spec, c, args, at, isLast, index);
          isLast := true;
        }
      } else {
        value := "?";
        if spec.silent {
          optarg := Some([c]);
        }
      }
      if isLast {
        env := env - {NEXT_CHAR};
        return Result(value, optarg, index + 1, true);
      }
      env := env[NEXT_CHAR := NatToString(at + 1)];
      return Result(value, optarg, index, true);
    }

    method Update(name: string, r: Result)
      modifies this`env
      ensures env == UpdateVariables(old(env), name, r)
    {
      env := env[name := r.value];
      if r.optarg.Some? {
        env := env[OPTARG := r.optarg.value];
      } else {
        env := env - {OPTARG};
      }
      env := env[OPTIND := NatToString(r.optind)];
      env := env[LAST_OPTIND := NatToString(r.optind)];
    }

    /** The builtin: explicit arguments, or else the positional parameters. */
    method Getopts(options: string, name: string, explicit: seq<string>) returns (code: nat)
      modifies this`env
      ensures (env, code) == Execute(old(env), options, name, if explicit != [] then explicit else positional)
    {
      if !ValidVariableName(name) {
        return 1;
      }
      var spec := ParseOptionSpec(options);
      var nextIndex := OptindOf(env);
      if LastOptindOf(env) != Some(nextIndex) {
        env := env - {NEXT_CHAR};
      }
      var args := if explicit != [] then explicit else positional;
      var r := ParseNext(spec, args, Max(nextIndex, 1));
      Update(name, r);
      code := if r.success then 0 else 1;
    }
  }
}
