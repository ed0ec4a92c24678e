/** Word splitting of a line read by `read`, without and with a limit on the
    number of fields. */
module IfsSplit {
  import opened Options

  predicate IsIfs(ifs: string, c: char) {
    c in ifs
  }

  predicate IsIfsWhitespace(ifs: string, c: char) {
    (c == ' ' || c == '\t' || c == '\n') && c in ifs
  }

  function SkipWhitespace(ifs: string, s: string): (r: string)
    ensures |r| <= |s|
    ensures r != [] ==> !IsIfsWhitespace(ifs, r[0])
  {
    if s != [] && IsIfsWhitespace(ifs, s[0]) then SkipWhitespace(ifs, s[1..]) else s
  }

  function DropTrailingWhitespace(ifs: string, s: string): (r: string)
    ensures |r| <= |s|
    ensures r != [] ==> r[0] == s[0] && !IsIfsWhitespace(ifs, r[|r| - 1])
  {
    if s != [] && IsIfsWhitespace(ifs, s[|s| - 1]) then DropTrailingWhitespace(ifs, s[..|s| - 1]) else s
  }

  function Trim(ifs: string, s: string): (r: string)
    ensures |r| <= |s|
    ensures r != [] ==> !IsIfsWhitespace(ifs, r[0]) && !IsIfsWhitespace(ifs, r[|r| - 1])
  {
    DropTrailingWhitespace(ifs, SkipWhitespace(ifs, s))
  }

  // ---------- The reference: collapse, cut, drop ----------

  /** Each run of IFS whitespace shrunk to its first character. */
  function Collapse(ifs: string, s: string): string
    decreases |s|
  {
    if s == [] then [] else
    [s[0]] + Collapse(ifs, if IsIfsWhitespace(ifs, s[0]) then SkipWhitespace(ifs, s[1..]) else s[1..])
  }

  /** The pieces between IFS characters, empty ones included. */
  function Cut(ifs: string, s: string): (pieces: seq<string>)
    ensures pieces != []
  {
    if s == [] then [[]]
    else if IsIfs(ifs, s[0]) then [[]] + Cut(ifs, s[1..])
    else
      var rest := Cut(ifs, s[1..]);
      [[s[0]] + rest[0]] + rest[1..]
  }

  function DropTrailingEmpty(pieces: seq<string>): seq<string>
    requires pieces != []
  {
    if pieces[|pieces| - 1] == [] then pieces[..|pieces| - 1] else pieces
  }

  /** Splitting without a limit. */
  function SplitAll(ifs: string, line: string): seq<string> {
    DropTrailingEmpty(Cut(ifs, Collapse(ifs, Trim(ifs, line))))
  }

  // ---------- Fields one at a time ----------

  function FirstIfs(ifs: string, s: string): (k: nat)
    ensures k <= |s|
    ensures forall i :: 0 <= i < k ==> !IsIfs(ifs, s[i])
    ensures k < |s| ==> IsIfs(ifs, s[k])
  {
    if s == [] || IsIfs(ifs, s[0]) then 0 else 1 + FirstIfs(ifs, s[1..])
  }

  /** What follows the field that ends at the IFS character `s[k]`. */
  function AfterField(ifs: string, s: string, k: nat): (rest: string)
    requires k < |s|
    ensures |rest| < |s|
  {
    if IsIfsWhitespace(ifs, s[k]) then SkipWhitespace(ifs, s[k + 1..]) else s[k + 1..]
  }

  /** At most `n` fields of a trimmed text; the n-th takes all that is left. */
  function Fields(ifs: string, s: string, n: nat): seq<string>
    requires n >= 1
    decreases |s|
  {
    if s == [] then []
    else if n == 1 then [SkipWhitespace(ifs, s)]
    else
      var k := FirstIfs(ifs, s);
      if k == |s| then [s] else [s[..k]] + Fields(ifs, AfterField(ifs, s, k), n - 1)
  }

  function AllFields(ifs: string, s: string): seq<string>
    decreases |s|
  {
    if s == [] then []
    else
      var k := FirstIfs(ifs, s);
      if k == |s| then [s] else [s[..k]] + AllFields(ifs, AfterField(ifs, s, k))
  }

  ghost predicate EndsTrimmed(ifs: string, s: string) {
    s != [] ==> !IsIfsWhitespace(ifs, s[|s| - 1])
  }

  predicate IsSuffix(t: string, s: string) {
    |t| <= |s| && t == s[|s| - |t|..]
  }

  lemma SuffixTransitive(t: string, u: string, s: string)
    requires IsSuffix(t, u) && IsSuffix(u, s)
    ensures IsSuffix(t, s)
  {
  }

  lemma {:induction false} SkipIsSuffix(ifs: string, s: string)
    ensures IsSuffix(SkipWhitespace(ifs, s), s)
  {
    if s != [] && IsIfsWhitespace(ifs, s[0]) {
      SkipIsSuffix(ifs, s[1..]);
    }
  }

  lemma AfterFieldIsSuffix(ifs: string, s: string, k: nat)
    requires k < |s|
    ensures IsSuffix(AfterField(ifs, s, k), s)
  {
    SkipIsSuffix(ifs, s[k + 1..]);
    SuffixTransitive(AfterField(ifs, s, k), s[k + 1..], s);
  }

  lemma AfterFieldEndsTrimmed(ifs: string, s: string, k: nat)
    requires EndsTrimmed(ifs, s) && k < |s|
    ensures EndsTrimmed(ifs, AfterField(ifs, s, k))
  {
    AfterFieldIsSuffix(ifs, s, k);
  }

  // ---------- One field at a time is collapse, cut, drop ----------

  ghost predicate IfsFree(ifs: string, s: string) {
    forall i :: 0 <= i < |s| ==> !IsIfs(ifs, s[i])
  }

  lemma {:induction false} CutWord(ifs: string, word: string)
    requires IfsFree(ifs, word)
    ensures Cut(ifs, word) == [word]
  {
    if word != [] {
      CutWord(ifs, word[1..]);
      assert [word[0]] + word[1..] == word;
    }
  }

  lemma {:induction false} CutAfterWord(ifs: string, word: string, d: char, rest: string)
    requires IfsFree(ifs, word) && IsIfs(ifs, d)
    ensures Cut(ifs, word + ([d] + rest)) == [word] + Cut(ifs, rest)
  {
    var s := word + ([d] + rest);
    if word == [] {
      assert s[1..] == rest;
    } else {
      assert s[1..] == word[1..] + ([d] + rest);
      CutAfterWord(ifs, word[1..], d, rest);
      assert [word[0]] + word[1..] == word;
      assert ([word[1..]] + Cut(ifs, rest))[1..] == Cut(ifs, rest);
    }
  }

  lemma {:induction false} CollapseWord(ifs: string, word: string, rest: string)
    requires IfsFree(ifs, word)
    ensures Collapse(ifs, word + rest) == word + Collapse(ifs, rest)
  {
    if word == [] {
      assert word + rest == rest;
    } else {
      assert (word + rest)[1..] == word[1..] + rest;
      CollapseWord(ifs, word[1..], rest);
      Reassemble(word, Collapse(ifs, rest));
    }
  }

  lemma Reassemble(word: string, tail: string)
    requires word != []
    ensures [word[0]] + (word[1..] + tail) == word + tail
  {
  }

  lemma DropTrailingEmptyCons(p: string, pieces: seq<string>)
    requires pieces != []
    ensures DropTrailingEmpty([p] + pieces) == [p] + DropTrailingEmpty(pieces)
  {
  }

  lemma {:induction false} AllFieldsAreSplit(ifs: string, s: string)
    requires EndsTrimmed(ifs, s)
    ensures AllFields(ifs, s) == DropTrailingEmpty(Cut(ifs, Collapse(ifs, s)))
    decreases |s|
  {
    var k := FirstIfs(ifs, s);
    var word := s[..k];
    CollapseWord(ifs, word, s[k..]);
    assert s == word + s[k..];
    if k == |s| {
      assert s == word && word + Collapse(ifs, []) == word;
      CutWord(ifs, word);
    } else {
      var rest := AfterField(ifs, s, k);
      assert s[k..][1..] == s[k + 1..];
      assert Collapse(ifs, s[k..]) == [s[k]] + Collapse(ifs, rest);
      CutAfterWord(ifs, word, s[k], Collapse(ifs, rest));
      DropTrailingEmptyCons(word, Cut(ifs, Collapse(ifs, rest)));
      AfterFieldEndsTrimmed(ifs, s, k);
      AllFieldsAreSplit(ifs, rest);
    }
  }

  // ---------- Properties of the unlimited split ----------

  /** The characters that separate nothing. */
  function Solid(ifs: string, s: string): string {
    if s == [] then [] else (if IsIfs(ifs, s[0]) then [] else [s[0]]) + Solid(ifs, s[1..])
  }

  function Concat(fields: seq<string>): string {
    if fields == [] then [] else fields[0] + Concat(fields[1..])
  }

  lemma {:induction false} SolidAppend(ifs: string, a: string, b: string)
    ensures Solid(ifs, a + b) == Solid(ifs, a) + Solid(ifs, b)
  {
    if a == [] {
      assert a + b == b;
    } else {
      assert (a + b)[1..] == a[1..] + b;
      SolidAppend(ifs, a[1..], b);
    }
  }

  lemma {:induction false} SolidOfWord(ifs: string, word: string)
    requires IfsFree(ifs, word)
    ensures Solid(ifs, word) == word
  {
    if word != [] {
      SolidOfWord(ifs, word[1..]);
    }
  }

  lemma {:induction false} SolidSkip(ifs: string, s: string)
    ensures Solid(ifs, SkipWhitespace(ifs, s)) == Solid(ifs, s)
  {
    if s != [] && IsIfsWhitespace(ifs, s[0]) {
      SolidSkip(ifs, s[1..]);
    }
  }

  lemma {:induction false} SolidDropTrailing(ifs: string, s: string)
    ensures Solid(ifs, DropTrailingWhitespace(ifs, s)) == Solid(ifs, s)
  {
    if s != [] && IsIfsWhitespace(ifs, s[|s| - 1]) {
      SolidDropTrailing(ifs, s[..|s| - 1]);
      assert s == s[..|s| - 1] + [s[|s| - 1]];
      SolidAppend(ifs, s[..|s| - 1], [s[|s| - 1]]);
    }
  }

  lemma SolidAtFirst(ifs: string, s: string, k: nat)
    requires k < |s| && IfsFree(ifs, s[..k]) && IsIfs(ifs, s[k])
    ensures Solid(ifs, s) == s[..k] + Solid(ifs, s[k + 1..])
  {
    assert s == s[..k] + s[k..];
    SolidAppend(ifs, s[..k], s[k..]);
    SolidOfWord(ifs, s[..k]);
    assert s[k..][1..] == s[k + 1..];
  }

  lemma ConcatCons(field: string, fields: seq<string>)
    ensures Concat([field] + fields) == field + Concat(fields)
  {
  }

  lemma {:induction false} AllFieldsKeepSolid(ifs: string, s: string)
    ensures Concat(AllFields(ifs, s)) == Solid(ifs, s)
    decreases |s|
  {
    if s != [] {
      var k := FirstIfs(ifs, s);
      if k == |s| {
        SolidOfWord(ifs, s);
        ConcatCons(s, []);
      } else {
        var rest := AfterField(ifs, s, k);
        SolidAtFirst(ifs, s, k);
        SolidSkip(ifs, s[k + 1..]);
        AllFieldsKeepSolid(ifs, rest);
        ConcatCons(s[..k], AllFields(ifs, rest));
      }
    }
  }

  /** No field holds an IFS character, and together the fields hold all the
      others, in order. */
  lemma SplitKeepsSolid(ifs: string, line: string)
    ensures Concat(SplitAll(ifs, line)) == Solid(ifs, line)
  {
    var s := Trim(ifs, line);
    AllFieldsAreSplit(ifs, s);
    AllFieldsKeepSolid(ifs, s);
    SolidDropTrailing(ifs, SkipWhitespace(ifs, line));
    SolidSkip(ifs, line);
  }

  /** The trimmed line ends in a separator that has no field before it. */
  predicate EndsInEmptyField(ifs: string, s: string) {
    s != [] && IsIfs(ifs, s[|s| - 1]) && (|s| == 1 || IsIfs(ifs, s[|s| - 2]))
  }

  function Last<T>(s: seq<T>): T
    requires s != []
  {
    s[|s| - 1]
  }

  lemma {:induction false} LastFieldEmpty(ifs: string, s: string)
    requires EndsTrimmed(ifs, s) && s != []
    ensures AllFields(ifs, s) != []
    ensures Last(AllFields(ifs, s)) == [] <==> EndsInEmptyField(ifs, s)
    decreases |s|
  {
    var k := FirstIfs(ifs, s);
    if k < |s| {
      var rest := AfterField(ifs, s, k);
      AfterFieldEndsTrimmed(ifs, s, k);
      if rest == [] {
        EmptyRestIsLast(ifs, s, k);
        assert AllFields(ifs, s) == [s[..k]];
      } else {
        LastFieldEmpty(ifs, rest);
        EndsAlike(ifs, s, k);
        assert Last([s[..k]] + AllFields(ifs, rest)) == Last(AllFields(ifs, rest));
      }
    }
  }

  lemma EndsAlike(ifs: string, s: string, k: nat)
    requires k < |s| && IsIfs(ifs, s[k]) && AfterField(ifs, s, k) != []
    ensures EndsInEmptyField(ifs, s) <==> EndsInEmptyField(ifs, AfterField(ifs, s, k))
  {
    var rest := AfterField(ifs, s, k);
    AfterFieldIsSuffix(ifs, s, k);
    if |rest| == 1 {
      LoneRest(ifs, s, k);
    }
  }

  lemma EmptyRestIsLast(ifs: string, s: string, k: nat)
    requires EndsTrimmed(ifs, s) && k < |s| && AfterField(ifs, s, k) == []
    ensures k == |s| - 1
  {
    var t := s[k + 1..];
    assert t != [] ==> t[|t| - 1] == s[|s| - 1];
    if t != [] && IsIfsWhitespace(ifs, s[k]) {
      AllWhitespace(ifs, t);
    }
  }

  lemma {:induction false} AllWhitespace(ifs: string, t: string)
    requires SkipWhitespace(ifs, t) == [] && t != []
    ensures IsIfsWhitespace(ifs, t[|t| - 1])
  {
    if |t| > 1 {
      AllWhitespace(ifs, t[1..]);
    }
  }

  /** A one-character rest directly follows a separator. */
  lemma LoneRest(ifs: string, s: string, k: nat)
    requires k < |s| && IsIfs(ifs, s[k]) && |AfterField(ifs, s, k)| == 1
    ensures |s| >= 2 && IsIfs(ifs, s[|s| - 2])
  {
    var t := s[k + 1..];
    if IsIfsWhitespace(ifs, s[k]) && |t| > 1 {
      BeforeRest(ifs, t);
      assert t[|t| - 2] == s[|s| - 2];
    }
  }

  lemma {:induction false} BeforeRest(ifs: string, t: string)
    requires |t| > 1 && |SkipWhitespace(ifs, t)| == 1
    ensures IsIfsWhitespace(ifs, t[|t| - 2])
  {
    if |t| > 2 {
      BeforeRest(ifs, t[1..]);
    }
  }

  /** The last field may be empty: exactly when two separators, or one alone,
      end the trimmed line. */
  lemma LastFieldEmptyExactly(ifs: string, line: string)
    requires Trim(ifs, line) != []
    ensures SplitAll(ifs, line) != []
    ensures Last(SplitAll(ifs, line)) == [] <==> EndsInEmptyField(ifs, Trim(ifs, line))
  {
    AllFieldsAreSplit(ifs, Trim(ifs, line));
    LastFieldEmpty(ifs, Trim(ifs, line));
  }

  // ---------- The limit ----------

  /** `b` is what a split into at most n fields makes of the full split `a`. */
  ghost predicate LimitedTo(a: seq<string>, b: seq<string>, n: nat) {
    && |b| == (if |a| < n then |a| else n)
    && (forall i :: 0 <= i < n - 1 && i < |b| ==> b[i] == a[i])
    && (|a| < n ==> b == a)
  }

  lemma LimitedCons(x: string, a: seq<string>, b: seq<string>, n: nat)
    requires n >= 1 && LimitedTo(a, b, n)
    ensures LimitedTo([x] + a, [x] + b, n + 1)
  {
  }

  lemma {:induction false} FieldsLimited(ifs: string, s: string, n: nat)
    requires n >= 1
    ensures LimitedTo(AllFields(ifs, s), Fields(ifs, s, n), n)
    decreases |s|
  {
    if s != [] {
      var k := FirstIfs(ifs, s);
      if n > 1 && k < |s| {
        var rest := AfterField(ifs, s, k);
        FieldsLimited(ifs, rest, n - 1);
        LimitedCons(s[..k], AllFields(ifs, rest), Fields(ifs, rest, n - 1), n - 1);
      }
    }
  }

  lemma {:induction false} LastIsSuffix(ifs: string, s: string, n: nat)
    requires n >= 1 && |Fields(ifs, s, n)| == n
    ensures IsSuffix(Last(Fields(ifs, s, n)), s)
    decreases |s|
  {
    if n == 1 {
      SkipIsSuffix(ifs, s);
    } else {
      var k := FirstIfs(ifs, s);
      if k < |s| {
        var rest := AfterField(ifs, s, k);
        LastIsSuffix(ifs, rest, n - 1);
        LastCons(s[..k], Fields(ifs, rest, n - 1));
        AfterFieldIsSuffix(ifs, s, k);
        SuffixTransitive(Last(Fields(ifs, rest, n - 1)), rest, s);
      }
    }
  }

  lemma LastCons(x: string, fields: seq<string>)
    requires fields != []
    ensures Last([x] + fields) == Last(fields)
  {
  }

  /** Splitting with an optional limit; a limit of zero acts as one. */
  function Split(ifs: string, line: string, maxFields: Option<nat>): seq<string> {
    var s := Trim(ifs, line);
    match maxFields
    case None => AllFields(ifs, s)
    case Some(n) => Fields(ifs, s, if n == 0 then 1 else n)
  }

  lemma UnlimitedSplit(ifs: string, line: string)
    ensures Split(ifs, line, None) == SplitAll(ifs, line)
  {
    AllFieldsAreSplit(ifs, Trim(ifs, line));
  }

  /** With a limit, all fields but the n-th are those of the full split, and an
      n-th field is a verbatim suffix of the trimmed line. */
  lemma LimitedSplit(ifs: string, line: string, n: nat)
    requires n >= 1
    ensures LimitedTo(SplitAll(ifs, line), Split(ifs, line, Some(n)), n)
    ensures |Split(ifs, line, Some(n))| == n ==> IsSuffix(Last(Split(ifs, line, Some(n))), Trim(ifs, line))
  {
    AllFieldsAreSplit(ifs, Trim(ifs, line));
    FieldsLimited(ifs, Trim(ifs, line), n);
    if |Split(ifs, line, Some(n))| == n {
      LastIsSuffix(ifs, Trim(ifs, line), n);
    }
  }

  lemma {:induction false} LargeLimit(ifs: string, s: string, n: nat)
    requires n > |s|
    ensures Fields(ifs, s, n) == AllFields(ifs, s)
    decreases |s|
  {
    if s != [] {
      var k := FirstIfs(ifs, s);
      if k < |s| {
        var rest := AfterField(ifs, s, k);
        LargeLimit(ifs, rest, n - 1);
        assert Fields(ifs, s, n) == [s[..k]] + Fields(ifs, rest, n - 1);
        assert AllFields(ifs, s) == [s[..k]] + AllFields(ifs, rest);
      }
    }
  }

  // ---------- The loop ----------

  /** Where the loop stands: the current field began at `b`, whitespace is being
      skipped, the last separator was no whitespace, or the last field is being
      filled; `k` fields may still come. */
  datatype Mode = Mode(b: nat, skipping: bool, prev: bool, remainder: bool, k: nat)

  /** The fields still to come. */
  function Rest(ifs: string, s: string, i: nat, m: Mode): seq<string>
    requires m.b <= i <= |s| && m.k >= 1
  {
    if m.remainder then [s[m.b..]]
    else if m.skipping || m.k == 1 then Fields(ifs, SkipWhitespace(ifs, s[i..]), m.k)
    else Fields(ifs, s[m.b..], m.k)
  }

  ghost predicate ModeOk(ifs: string, s: string, i: nat, m: Mode) {
    && m.b <= i <= |s| && m.k >= 1
    && (m.skipping ==> i > 0 && IsIfsWhitespace(ifs, s[i - 1]) && !m.remainder)
    && (m.skipping || (m.k == 1 && !m.remainder) ==> m.b == i)
    && (m.remainder ==> m.k == 1 && m.b < i)
    && (m.k > 1 ==> IfsFree(ifs, s[m.b..i]))
    && (m.b == i && !m.skipping && i > 0 ==> m.prev)
  }

  predicate Closes(ifs: string, c: char, m: Mode) {
    m.k > 1 && IsIfs(ifs, c) && !(m.skipping && IsIfsWhitespace(ifs, c))
  }

  /** The mode after the character `s[i]`. */
  function Step(ifs: string, i: nat, c: char, m: Mode): Mode
    requires m.k >= 1
  {
    var white := IsIfsWhitespace(ifs, c);
    if white && (m.skipping || (m.k == 1 && !m.remainder)) then m.(b := i + 1, skipping := true)
    else if m.k == 1 then Mode(m.b, false, m.prev && IsIfs(ifs, c) && !m.remainder, true, 1)
    else if IsIfs(ifs, c) then Mode(i + 1, white, !white, false, m.k - 1)
    else Mode(m.b, false, false, false, m.k)
  }

  predicate Aligned(i: nat, m: Mode) {
    && m.b <= i && m.k >= 1
    && (m.skipping || (m.k == 1 && !m.remainder) ==> m.b == i)
    && (m.remainder ==> m.k == 1 && !m.skipping)
  }

  function NextWord(i: nat, c: char, word: string, m': Mode): string {
    if m'.b == i + 1 then "" else word + [c]
  }

  lemma StepOk(ifs: string, s: string, i: nat, m: Mode)
    requires i < |s| && ModeOk(ifs, s, i, m)
    ensures ModeOk(ifs, s, i + 1, Step(ifs, i, s[i], m))
    ensures Step(ifs, i, s[i], m).k == if Closes(ifs, s[i], m) then m.k - 1 else m.k
  {
    assert s[m.b..i + 1] == s[m.b..i] + [s[i]];
  }

  lemma StepRest(ifs: string, s: string, i: nat, m: Mode)
    requires i < |s| && ModeOk(ifs, s, i, m) && EndsTrimmed(ifs, s)
    ensures ModeOk(ifs, s, i + 1, Step(ifs, i, s[i], m))
    ensures Rest(ifs, s, i, m)
         == (if Closes(ifs, s[i], m) then [s[m.b..i]] else []) + Rest(ifs, s, i + 1, Step(ifs, i, s[i], m))
  {
    StepOk(ifs, s, i, m);
    if Closes(ifs, s[i], m) {
      StepAtDelimiter(ifs, s, i, m);
    } else {
      assert s[i..][1..] == s[i + 1..];
    }
  }

  lemma SkipsNothing(ifs: string, s: string)
    requires s == [] || !IsIfsWhitespace(ifs, s[0])
    ensures SkipWhitespace(ifs, s) == s
  {
  }

  lemma LastFieldSkips(ifs: string, u: string)
    requires EndsTrimmed(ifs, u)
    ensures Fields(ifs, u, 1) == Fields(ifs, SkipWhitespace(ifs, u), 1)
  {
    var r := SkipWhitespace(ifs, u);
    SkipsNothing(ifs, r);
    if u != [] && r == [] {
      AllWhitespace(ifs, u);
    }
  }

  lemma CutThree(s: string, b: nat, i: nat)
    requires b <= i < |s|
    ensures s[b..] == s[b..i] + [s[i]] + s[i + 1..]
  {
  }

  /** Before a closing separator, what is to come is the split from `b` on. */
  lemma RestAtDelimiter(ifs: string, s: string, i: nat, m: Mode)
    requires i < |s| && ModeOk(ifs, s, i, m) && Closes(ifs, s[i], m)
    ensures Rest(ifs, s, i, m) == Fields(ifs, s[m.b..], m.k)
  {
    if m.skipping {
      SkipsNothing(ifs, s[m.b..]);
    }
  }

  lemma EndsTrimmedFrom(ifs: string, s: string, i: nat)
    requires i <= |s| && EndsTrimmed(ifs, s)
    ensures EndsTrimmed(ifs, s[i..])
  {
  }

  lemma RestAtFieldStart(ifs: string, s: string, i: nat, m: Mode)
    requires i <= |s| && EndsTrimmed(ifs, s) && m.k >= 1 && m.b == i && !m.remainder
    ensures Rest(ifs, s, i, m) == Fields(ifs, if m.skipping then SkipWhitespace(ifs, s[i..]) else s[i..], m.k)
  {
    EndsTrimmedFrom(ifs, s, i);
    if !m.skipping && m.k == 1 {
      LastFieldSkips(ifs, s[i..]);
    }
  }

  lemma RestAfterDelimiter(ifs: string, s: string, i: nat, m: Mode)
    requires i < |s| && EndsTrimmed(ifs, s) && m.k > 1 && Closes(ifs, s[i], m)
    ensures
      Rest(ifs, s, i + 1, Step(ifs, i, s[i], m))
      == Fields(ifs, if IsIfsWhitespace(ifs, s[i]) then SkipWhitespace(ifs, s[i + 1..]) else s[i + 1..], m.k - 1)
  {
    RestAtFieldStart(ifs, s, i + 1, Mode(i + 1, IsIfsWhitespace(ifs, s[i]), !IsIfsWhitespace(ifs, s[i]), false, m.k - 1));
  }

  lemma StepAtDelimiter(ifs: string, s: string, i: nat, m: Mode)
    requires i < |s| && ModeOk(ifs, s, i, m) && EndsTrimmed(ifs, s) && Closes(ifs, s[i], m)
    ensures Rest(ifs, s, i, m) == [s[m.b..i]] + Rest(ifs, s, i + 1, Step(ifs, i, s[i], m))
  {
    RestAtDelimiter(ifs, s, i, m);
    CutThree(s, m.b, i);
    FieldsAtFirst(ifs, s[m.b..], s[m.b..i], s[i], s[i + 1..], m.k);
    RestAfterDelimiter(ifs, s, i, m);
  }

  lemma FieldsAtFirst(ifs: string, t: string, word: string, d: char, u: string, k: nat)
    requires t == word + [d] + u && IfsFree(ifs, word) && IsIfs(ifs, d) && k > 1
    ensures Fields(ifs, t, k) == [word] + Fields(ifs, if IsIfsWhitespace(ifs, d) then SkipWhitespace(ifs, u) else u, k - 1)
  {
    var f := FirstIfs(ifs, t);
    assert forall i :: 0 <= i < |word| ==> t[i] == word[i];
    assert t[|word|] == d;
    assert f == |word|;
    assert t[..f] == word && t[f + 1..] == u;
  }

  lemma SliceSnoc(s: string, b: nat, i: nat)
    requires b <= i < |s|
    ensures s[b..i + 1] == s[b..i] + [s[i]]
    ensures s[i + 1..i + 1] == ""
    ensures b == i ==> s[b..i] == ""
  {
  }

  lemma AppendAssociative(a: seq<string>, b: seq<string>, c: seq<string>)
    ensures a + (b + c) == (a + b) + c
  {
  }

  const USIZE_MAX: nat := 0xFFFF_FFFF_FFFF_FFFF

  method SplitLineByIfs(ifs: string, line: string, maxFields: Option<nat>) returns (fields: seq<string>)
    requires |line| < USIZE_MAX
    ensures fields == Split(ifs, line, maxFields)
  {
    var trimmed := Trim(ifs, line);
    if trimmed == [] {
      return [];
    }
    var limit := maxFields.GetOr(USIZE_MAX);
    if maxFields.None? {
      LargeLimit(ifs, trimmed, limit);
    }
    fields := SplitTrimmed(ifs, trimmed, limit);
  }

  /** One character: whether it closes the current field, and the flags after it. */
  method SplitChar(ifs: string, c: char, atLimit: bool, field: string, skips: bool, prev: bool, remains: bool,
                   ghost i: nat, ghost m: Mode)
    returns (closed: bool, current: string, skipping: bool, prevNonWhitespace: bool, remainder: bool)
    requires m.k >= 1 && atLimit == (m.k == 1) && skips == m.skipping && prev == m.prev && remains == m.remainder
    requires m.b <= i && (m.skipping ==> !m.remainder) && (m.remainder ==> m.k == 1)
    requires m.skipping || (m.k == 1 && !m.remainder) ==> field == ""
    ensures closed == Closes(ifs, c, m)
    ensures
      var m' := Step(ifs, i, c, m);
      && skipping == m'.skipping && prevNonWhitespace == m'.prev && remainder == m'.remainder
      && current == NextWord(i, c, field, m')
  {
    closed, current, skipping, prevNonWhitespace, remainder := false, field, skips, prev, remains;
    if skipping && IsIfsWhitespace(ifs, c) {
      return;
    }
    skipping := false;
    var isDelimiter := IsIfs(ifs, c);
    if !atLimit && isDelimiter {
      closed := true;
      current := "";
      skipping := IsIfsWhitespace(ifs, c);
      prevNonWhitespace := !skipping;
    } else if atLimit && !remainder && isDelimiter {
      if IsIfsWhitespace(ifs, c) {
        skipping := true;
      } else {
        remainder := true;
        current := current + [c];
      }
    } else {
      remainder := atLimit;
      current := current + [c];
      prevNonWhitespace := false;
    }
  }

  /** The state machine over the characters of a trimmed line. */
  method SplitTrimmed(ifs: string, s: string, limit: nat) returns (fields: seq<string>)
    requires s != [] && !IsIfsWhitespace(ifs, s[0]) && !IsIfsWhitespace(ifs, s[|s| - 1])
    ensures fields == Fields(ifs, s, if limit == 0 then 1 else limit)
  {
    ghost var n := if limit == 0 then 1 else limit;
    ghost var m := Mode(0, false, false, false, n);
    ghost var all := Fields(ifs, s, n);
    var current := "";
    var skipping, prevNonWhitespace, remainder := false, false, false;
    fields := [];
    StandingStart(ifs, s, n);
    for i := 0 to |s|
      invariant Aligned(i, m) && m.k + |fields| == n
      invariant m.b == i ==> current == ""
      invariant skipping == m.skipping && remainder == m.remainder && prevNonWhitespace == m.prev
      invariant Standing(ifs, s, i, m, current, fields, all)
    {
      StepFields(ifs, s, i, m, current, fields, all);
      var closed, current' := false, current;
      closed, current', skipping, prevNonWhitespace, remainder :=
        SplitChar(ifs, s[i], |fields| + 1 >= limit, current, skipping, prevNonWhitespace, remainder, i, m);
      if closed {
        fields := fields + [current];
      }
      current := current';
      m := Step(ifs, i, s[i], m);
    }
    EndFields(ifs, s, m, current, fields, all);
    if current != "" || !prevNonWhitespace {
      fields := fields + [current];
    }
  }

  lemma RestStart(ifs: string, s: string, n: nat)
    requires s != [] && !IsIfsWhitespace(ifs, s[0]) && n >= 1
    ensures Rest(ifs, s, 0, Mode(0, false, false, false, n)) == Fields(ifs, s, n)
  {
    assert s[0..] == s;
    SkipsNothing(ifs, s);
  }

  lemma StandingStart(ifs: string, s: string, n: nat)
    requires s != [] && !IsIfsWhitespace(ifs, s[0]) && n >= 1
    ensures Standing(ifs, s, 0, Mode(0, false, false, false, n), "", [], Fields(ifs, s, n))
  {
    RestStart(ifs, s, n);
    var rest := Rest(ifs, s, 0, Mode(0, false, false, false, n));
    assert [] + rest == rest;
    assert s[0..0] == "";
  }

  /** The fields so far and those still to come make up `all`. */
  ghost predicate Standing(ifs: string, s: string, i: nat, m: Mode, word: string, fields: seq<string>, all: seq<string>) {
    ModeOk(ifs, s, i, m) && word == s[m.b..i] && fields + Rest(ifs, s, i, m) == all
  }

  lemma StepFields(ifs: string, s: string, i: nat, m: Mode, word: string, fields: seq<string>, all: seq<string>)
    requires EndsTrimmed(ifs, s) && i < |s| && Standing(ifs, s, i, m, word, fields, all)
    ensures Aligned(i, m)
    ensures
      var m' := Step(ifs, i, s[i], m);
      var fields' := if Closes(ifs, s[i], m) then fields + [word] else fields;
      Standing(ifs, s, i + 1, m', NextWord(i, s[i], word, m'), fields', all)
  {
    StepRest(ifs, s, i, m);
    SliceSnoc(s, m.b, i);
    AppendAssociative(fields, if Closes(ifs, s[i], m) then [word] else [], Rest(ifs, s, i + 1, Step(ifs, i, s[i], m)));
    assert fields + [] == fields;
  }

  lemma EndFields(ifs: string, s: string, m: Mode, word: string, fields: seq<string>, all: seq<string>)
    requires s != [] && EndsTrimmed(ifs, s) && Standing(ifs, s, |s|, m, word, fields, all)
    ensures all == if word != "" || !m.prev then fields + [word] else fields
  {
    LastFields(ifs, s, m);
    assert fields + [] == fields;
  }

  /** At the end of the line one field is still open, or none. */
  lemma LastFields(ifs: string, s: string, m: Mode)
    requires s != [] && EndsTrimmed(ifs, s) && ModeOk(ifs, s, |s|, m)
    ensures Rest(ifs, s, |s|, m) == if m.b < |s| || !m.prev then [s[m.b..|s|]] else []
  {
    assert s[m.b..|s|] == s[m.b..];
    assert s[|s|..] == "";
  }
}
