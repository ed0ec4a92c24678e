/** What `read` assigns: the values of its variables and of an array. */
module ReadVariables {
  import opened Options
  import opened IfsSplit

  function EmptyFields(n: nat): seq<string> {
    seq(n, _ => "")
  }

  function JoinBySpace(fields: seq<string>): string {
    if fields == [] then "" else
    if |fields| == 1 then fields[0] else fields[0] + " " + JoinBySpace(fields[1..])
  }

  /** The values of `n` variables: one field each, the rest joined in the last. */
  function Values(fields: seq<string>, n: nat): seq<string>
    decreases n
  {
    if n == 0 then []
    else if fields == [] then [""] + Values([], n - 1)
    else if n == 1 then [JoinBySpace(fields)]
    else [fields[0]] + Values(fields[1..], n - 1)
  }

  /** With no more fields than variables nothing is joined: the values are the
      fields, padded with empty strings. */
  lemma {:induction false} ValuesPad(fields: seq<string>, n: nat)
    requires |fields| <= n
    ensures Values(fields, n) == fields + EmptyFields(n - |fields|)
    decreases n
  {
    if n > 0 {
      if fields == [] {
        ValuesPad([], n - 1);
        assert [""] + EmptyFields(n - 1) == EmptyFields(n);
      } else if n == 1 {
        assert fields == [fields[0]] && fields + EmptyFields(0) == fields;
      } else {
        ValuesPad(fields[1..], n - 1);
        assert fields == [fields[0]] + fields[1..];
        AppendAssociative([fields[0]], fields[1..], EmptyFields(n - |fields|));
      }
    }
  }

  function VariableFields(line: Option<string>, ifs: string, skipSplitting: bool, n: nat): seq<string> {
    match line
    case None => []
    case Some(text) => if skipSplitting then [text] else Split(ifs, text, Some(n))
  }

  /** The elements of an array variable: all the fields of the line, or the line. */
  method BuildArrayFields(line: Option<string>, ifs: string, skipSplitting: bool) returns (fields: seq<string>)
    requires line.Some? ==> |line.value| < USIZE_MAX
    ensures line.None? ==> fields == []
    ensures line.Some? && skipSplitting ==> fields == [line.value]
    ensures line.Some? && !skipSplitting ==> fields == SplitAll(ifs, line.value) && Concat(fields) == Solid(ifs, line.value)
  {
    if line.None? {
      return [];
    }
    if skipSplitting {
      return [line.value];
    }
    fields := SplitLineByIfs(ifs, line.value, None);
    UnlimitedSplit(ifs, line.value);
    SplitKeepsSolid(ifs, line.value);
  }

  /** `read` into n variables never joins two fields: the variables hold the
      fields of the limited split and then empty strings. */
  lemma ReadJoinsNothing(line: Option<string>, ifs: string, skipSplitting: bool, n: nat)
    requires n >= 1
    ensures
      var fields := VariableFields(line, ifs, skipSplitting, n);
      |fields| <= n && Values(fields, n) == fields + EmptyFields(n - |fields|)
  {
    if line.Some? && !skipSplitting {
      LimitedSplit(ifs, line.value, n);
    }
    ValuesPad(VariableFields(line, ifs, skipSplitting, n), n);
  }

  type Env = map<string, string>

  /** Assignments in order, so that a repeated name keeps its last value. */
  function AssignAll(env: Env, names: seq<string>, values: seq<string>): Env
    requires |names| == |values|
    decreases |names|
  {
    if names == [] then env else AssignAll(env[names[0] := values[0]], names[1..], values[1..])
  }

  lemma {:induction false} ValuesLength(fields: seq<string>, n: nat)
    ensures |Values(fields, n)| == n
    decreases n
  {
    if n > 0 {
      ValuesLength(if fields == [] then [] else fields[1..], n - 1);
    }
  }

  /** Giving the names from `i` on the values of the remaining fields ends in `all`. */
  ghost predicate Assigning(env: Env, names: seq<string>, fields: seq<string>, i: nat, all: Env) {
    && i <= |names| && |Values(fields, |names| - i)| == |names| - i
    && AssignAll(env, names[i..], Values(fields, |names| - i)) == all
  }

  lemma AssigningStart(env: Env, names: seq<string>, fields: seq<string>)
    ensures |Values(fields, |names|)| == |names|
    ensures Assigning(env, names, fields, 0, AssignAll(env, names, Values(fields, |names|)))
  {
    ValuesLength(fields, |names|);
    assert names[0..] == names;
  }

  lemma AssignStep(env: Env, names: seq<string>, fields: seq<string>, i: nat, all: Env)
    requires i < |names| && Assigning(env, names, fields, i, all)
    ensures
      var last := i == |names| - 1;
      var value := if fields == [] then "" else if last then JoinBySpace(fields) else fields[0];
      Assigning(env[names[i] := value], names, if fields == [] || last then [] else fields[1..], i + 1, all)
  {
    var n := |names| - i;
    var value := if fields == [] then "" else if n == 1 then JoinBySpace(fields) else fields[0];
    var rest := if fields == [] || n == 1 then [] else fields[1..];
    assert names[i..][0] == names[i] && names[i..][1..] == names[i + 1..];
    ValuesLength(rest, n - 1);
    assert Values(fields, n) == [value] + Values(rest, n - 1);
    assert Values(fields, n)[1..] == Values(rest, n - 1);
  }

  // ---------- What each variable holds ----------

  lemma TrimmedAlready(ifs: string, v: string)
    requires EndsTrimmed(ifs, v) && (v != "" ==> !IsIfsWhitespace(ifs, v[0]))
    ensures Trim(ifs, v) == v
  {
  }

  /** A text is what is left of `all` fields from the n-th on, or past the
      whitespace that makes an empty field there. */
  ghost predicate SplitsOn(ifs: string, v: string, all: seq<string>, n: nat)
    requires n >= 1
  {
    && v != "" && EndsTrimmed(ifs, v) && !IsIfsWhitespace(ifs, v[0]) && |all| >= n
    && (AllFields(ifs, v) == all[n - 1..] || (all[n - 1] == "" && AllFields(ifs, v) == all[n..]))
  }

  lemma LastSplitsCons(ifs: string, x: string, fields: seq<string>, all: seq<string>, n: nat)
    requires |fields| == n >= 1 && SplitsOn(ifs, Last(fields), all, n)
    ensures SplitsOn(ifs, Last([x] + fields), [x] + all, n + 1)
  {
    LastCons(x, fields);
    ShiftCons(x, all, n);
  }

  lemma LastOfOne(ifs: string, s: string)
    requires EndsTrimmed(ifs, s) && |Fields(ifs, s, 1)| == 1
    ensures SplitsOn(ifs, Last(Fields(ifs, s, 1)), AllFields(ifs, s), 1)
  {
    LastIsNotBlank(ifs, s);
  }

  /** The n-th field of a limited split begins where the n-th of the full split
      does, or past the whitespace that makes an empty field there; split again
      it gives the fields that were left. */
  lemma {:induction false} LastSplitsOn(ifs: string, s: string, n: nat)
    requires n >= 1 && EndsTrimmed(ifs, s) && |Fields(ifs, s, n)| == n
    ensures SplitsOn(ifs, Last(Fields(ifs, s, n)), AllFields(ifs, s), n)
    decreases |s|
  {
    if n == 1 {
      LastOfOne(ifs, s);
    } else {
      var k := FirstIfs(ifs, s);
      CutHere(ifs, s, n, k);
      var rest := AfterField(ifs, s, k);
      var fields := Fields(ifs, rest, n - 1);
      AfterFieldEndsTrimmed(ifs, s, k);
      LastSplitsOn(ifs, rest, n - 1);
      LastSplitsCons(ifs, s[..k], fields, AllFields(ifs, rest), n - 1);
    }
  }

  lemma CutHere(ifs: string, s: string, n: nat, k: nat)
    requires n >= 2 && |Fields(ifs, s, n)| == n && k == FirstIfs(ifs, s)
    ensures k < |s|
    ensures Fields(ifs, s, n) == [s[..k]] + Fields(ifs, AfterField(ifs, s, k), n - 1)
    ensures AllFields(ifs, s) == [s[..k]] + AllFields(ifs, AfterField(ifs, s, k))
  {
  }

  lemma ShiftCons(x: string, fields: seq<string>, n: nat)
    requires 1 <= n <= |fields|
    ensures ([x] + fields)[n..] == fields[n - 1..] && ([x] + fields)[n + 1..] == fields[n..] && ([x] + fields)[n] == fields[n - 1]
  {
  }

  lemma LastIsNotBlank(ifs: string, s: string)
    requires EndsTrimmed(ifs, s) && s != []
    ensures SplitsOn(ifs, SkipWhitespace(ifs, s), AllFields(ifs, s), 1)
  {
    SkipKeepsEnd(ifs, s);
    if IsIfsWhitespace(ifs, s[0]) {
      BlankHead(ifs, s);
      TailOfCons("", AllFields(ifs, SkipWhitespace(ifs, s)));
    } else {
      SkipsNothing(ifs, s);
      var all := AllFields(ifs, s);
      assert all[0..] == all;
    }
  }

  lemma SkipKeepsEnd(ifs: string, s: string)
    requires EndsTrimmed(ifs, s) && s != []
    ensures SkipWhitespace(ifs, s) != "" && EndsTrimmed(ifs, SkipWhitespace(ifs, s))
  {
    SkipIsSuffix(ifs, s);
    if SkipWhitespace(ifs, s) == [] {
      AllWhitespace(ifs, s);
    }
  }

  lemma BlankHead(ifs: string, s: string)
    requires s != [] && IsIfsWhitespace(ifs, s[0])
    ensures AllFields(ifs, s) == [""] + AllFields(ifs, SkipWhitespace(ifs, s))
  {
    assert FirstIfs(ifs, s) == 0 && s[..0] == "";
  }

  lemma TailOfCons(x: string, fields: seq<string>)
    ensures ([x] + fields)[1..] == fields
  {
  }

  /** A text that is one field is that field, unless a separator ends it. */
  lemma OneField(ifs: string, v: string)
    requires v != "" && EndsTrimmed(ifs, v) && |AllFields(ifs, v)| == 1
    ensures AllFields(ifs, v)[0] == v <==> !IsIfs(ifs, v[|v| - 1])
  {
    var k := FirstIfs(ifs, v);
    if k < |v| {
      EmptyRestIsLast(ifs, v, k);
    }
  }

  lemma CommaCuts(ifs: string, s: string)
    requires ifs == "," && s == "x,y,"
    ensures Trim(ifs, s) == s && FirstIfs(ifs, s) == 1 && s[..1] == "x" && AfterField(ifs, s, 1) == "y,"
  {
    assert s[2..] == "y,";
  }

  lemma CommaEnds(ifs: string, v: string)
    requires ifs == "," && v == "y,"
    ensures AllFields(ifs, v) == ["y"] && Fields(ifs, v, 1) == [v]
  {
    assert FirstIfs(ifs, v) == 1 && v[..1] == "y" && v[2..] == [];
    assert AllFields(ifs, v) == ["y"] + AllFields(ifs, []);
  }

  lemma CommaFields(ifs: string, s: string, v: string)
    requires ifs == "," && s == "x,y," && v == "y,"
    ensures SplitAll(ifs, s) == ["x", "y"] && Split(ifs, s, Some(2)) == ["x", v]
  {
    CommaCuts(ifs, s);
    CommaEnds(ifs, v);
    UnlimitedSplit(ifs, s);
  }

  /** `read a b` of `x,y,` with a comma in IFS leaves `y,` in the second variable,
      though the fields are `x` and `y`. */
  lemma TrailingSeparatorExample()
    ensures SplitAll(",", "x,y,") == ["x", "y"]
    ensures Values(VariableFields(Some("x,y,"), ",", false, 2), 2) == ["x", "y,"]
  {
    CommaFields(",", "x,y,", "y,");
    ValuesPad(["x", "y,"], 2);
    assert EmptyFields(0) == [];
  }

  /** What the `i`-th of `n` variables holds of a line that is split. */
  ghost predicate SplitInto(ifs: string, line: string, n: nat, i: nat, v: string) {
    var all, s := SplitAll(ifs, line), Trim(ifs, line);
    if |all| <= i then v == ""
    else if i < n - 1 then v == all[i]
    else
      && IsSuffix(v, s) && v != "" && !IsIfsWhitespace(ifs, v[0])
      && (SplitAll(ifs, v) == all[i..] || (all[i] == "" && SplitAll(ifs, v) == all[i + 1..]))
      && (|all| == i + 1 ==> (v == all[i] <==> !IsIfs(ifs, s[|s| - 1])))
  }

  /** What the `i`-th of `n` variables holds. */
  ghost predicate ReadInto(line: Option<string>, ifs: string, skipSplitting: bool, n: nat, i: nat, v: string) {
    match line
    case None => v == ""
    case Some(text) => if skipSplitting then v == (if i == 0 then text else "") else SplitInto(ifs, text, n, i, v)
  }

  /** The last of `n` variables, when all are filled. */
  lemma LastVariable(ifs: string, line: string, n: nat)
    requires n >= 1 && |Split(ifs, line, Some(n))| == n
    ensures SplitInto(ifs, line, n, n - 1, Last(Split(ifs, line, Some(n))))
  {
    var s := Trim(ifs, line);
    var v := Last(Fields(ifs, s, n));
    LimitedSplit(ifs, line, n);
    AllFieldsAreSplit(ifs, s);
    LastSplitsOn(ifs, s, n);
    AllFieldsAreSplit(ifs, v);
    TrimmedAlready(ifs, v);
    SameLast(v, s);
    if |SplitAll(ifs, line)| == n {
      LoneLast(ifs, v, SplitAll(ifs, line), n);
    }
  }

  lemma SameLast(v: string, s: string)
    requires IsSuffix(v, s) && v != ""
    ensures s != "" && v[|v| - 1] == s[|s| - 1]
  {
  }

  lemma LoneLast(ifs: string, v: string, all: seq<string>, n: nat)
    requires v != "" && EndsTrimmed(ifs, v) && |all| == n >= 1
    requires AllFields(ifs, v) == all[n - 1..] || (all[n - 1] == "" && AllFields(ifs, v) == all[n..])
    ensures v == all[n - 1] <==> !IsIfs(ifs, v[|v| - 1])
  {
    assert AllFields(ifs, v) != [];
    OneField(ifs, v);
  }

  lemma SplitHolds(line: string, ifs: string, n: nat, i: nat)
    requires i < n
    ensures
      var fields := Split(ifs, line, Some(n));
      SplitInto(ifs, line, n, i, if i < |fields| then fields[i] else "")
  {
    LimitedSplit(ifs, line, n);
    if |Split(ifs, line, Some(n))| == n {
      LastVariable(ifs, line, n);
    }
  }

  /** Every variable holds its field of the full split, or nothing; the last one
      the rest of the line. */
  lemma VariablesHold(line: Option<string>, ifs: string, skipSplitting: bool, n: nat, i: nat)
    requires i < n
    ensures |Values(VariableFields(line, ifs, skipSplitting, n), n)| == n
    ensures ReadInto(line, ifs, skipSplitting, n, i, Values(VariableFields(line, ifs, skipSplitting, n), n)[i])
  {
    var fields := VariableFields(line, ifs, skipSplitting, n);
    ReadJoinsNothing(line, ifs, skipSplitting, n);
    assert Values(fields, n)[i] == if i < |fields| then fields[i] else "";
    if line.Some? && !skipSplitting {
      SplitHolds(line.value, ifs, n, i);
    }
  }

  /** The last assignment to a name counts, and other names keep their values. */
  lemma {:induction false} AssignedLast(env: Env, names: seq<string>, values: seq<string>, i: nat)
    requires |names| == |values| && i < |names| && names[i] !in names[i + 1..]
    ensures names[i] in AssignAll(env, names, values) && AssignAll(env, names, values)[names[i]] == values[i]
    decreases |names|
  {
    if i == 0 {
      NotAssigned(env[names[0] := values[0]], names[1..], values[1..], names[0]);
    } else {
      assert names[1..][i..] == names[i + 1..];
      AssignedLast(env[names[0] := values[0]], names[1..], values[1..], i - 1);
    }
  }

  lemma {:induction false} NotAssigned(env: Env, names: seq<string>, values: seq<string>, name: string)
    requires |names| == |values| && name !in names
    ensures name in AssignAll(env, names, values) <==> name in env
    ensures name in env ==> AssignAll(env, names, values)[name] == env[name]
    decreases |names|
  {
    if names != [] {
      NotAssigned(env[names[0] := values[0]], names[1..], values[1..], name);
    }
  }

  class ReadShell {
    var env: Env

    method AssignToNamedVariables(line: Option<string>, ifs: string, skipSplitting: bool, names: seq<string>)
      requires names != [] && (line.Some? ==> |line.value| < USIZE_MAX)
      modifies this
      ensures forall i :: 0 <= i < |names| && names[i] !in names[i + 1..] ==>
                names[i] in env && ReadInto(line, ifs, skipSplitting, |names|, i, env[names[i]])
      ensures forall name :: name !in names ==>
                (name in env <==> name in old(env)) && (name in env ==> env[name] == old(env)[name])
    {
      AssignInTurn(line, ifs, skipSplitting, names);
      ghost var values := Values(VariableFields(line, ifs, skipSplitting, |names|), |names|);
      forall i | 0 <= i < |names| && names[i] !in names[i + 1..]
        ensures names[i] in env && ReadInto(line, ifs, skipSplitting, |names|, i, env[names[i]])
      {
        VariablesHold(line, ifs, skipSplitting, |names|, i);
        AssignedLast(old(env), names, values, i);
      }
      forall name | name !in names
        ensures (name in env <==> name in old(env)) && (name in env ==> env[name] == old(env)[name])
      {
        NotAssigned(old(env), names, values, name);
      }
    }

    /** The loop over the names. */
    method AssignInTurn(line: Option<string>, ifs: string, skipSplitting: bool, names: seq<string>)
      requires names != [] && (line.Some? ==> |line.value| < USIZE_MAX)
      modifies this
      ensures
        var values := Values(VariableFields(line, ifs, skipSplitting, |names|), |names|);
        |values| == |names| && env == AssignAll(old(env), names, values)
    {
      var fields := [];
      if line.Some? {
        if skipSplitting {
          fields := [line.value];
        } else {
          fields := SplitLineByIfs(ifs, line.value, Some(|names|));
        }
      }
      AssigningStart(env, names, fields);
      ghost var all := AssignAll(env, names, Values(fields, |names|));
      for i := 0 to |names|
        invariant Assigning(env, names, fields, i, all)
      {
        AssignStep(env, names, fields, i, all);
        var isLast := i == |names| - 1;
        var value := "";
        if fields != [] {
          if isLast {
            value := JoinBySpace(fields);
            fields := [];
          } else {
            value := fields[0];
            fields := fields[1..];
          }
        }
        env := env[names[i] := value];
      }
    }
  }
}
