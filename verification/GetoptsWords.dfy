/** Command lines written from options, and what a `getopts` loop reports of
    them: every argument list is written so, and is read back as it was written. */
module GetoptsWords {
  import opened Options
  import opened Getopts

  // ---------- Writing options ----------

  /** A word of options: flags alone, or flags and then an option with its value
      in the same word, in the next one, or missing. */
  datatype Word =
    | Flags(flags: string)
    | Attached(flags: string, c: char, value: string)
    | Separate(flags: string, c: char, value: string)
    | Missing(flags: string, c: char)

  function Written(w: Word): seq<string> {
    match w
    case Flags(flags) => [['-'] + flags]
    case Attached(flags, c, value) => [['-'] + flags + [c] + value]
    case Separate(flags, c, value) => [['-'] + flags + [c], value]
    case Missing(flags, c) => [['-'] + flags + [c]]
  }

  function WrittenAll(words: seq<Word>): seq<string> {
    if words == [] then [] else Written(words[0]) + WrittenAll(words[1..])
  }

  /** The option string defines the option with an argument. */
  predicate Takes(options: string, c: char) {
    c != ':' && c in options && TakesArgument(options, c)
  }

  predicate Knows(options: string, c: char) {
    c != ':' && c in options
  }

  predicate Silent(options: string) {
    options != [] && options[0] == ':'
  }

  predicate AllFlags(options: string, flags: string) {
    forall k :: 0 <= k < |flags| ==> !Takes(options, flags[k])
  }

  /** The word means what it says under the option string. */
  predicate Proper(options: string, w: Word) {
    && AllFlags(options, w.flags) && Written(w)[0] != "--"
    && match w
       case Flags(flags) => flags != []
       case Attached(_, c, value) => Takes(options, c) && value != []
       case Separate(_, c, _) => Takes(options, c)
       case Missing(_, c) => Takes(options, c)
  }

  predicate AllProper(options: string, words: seq<Word>) {
    forall k :: 0 <= k < |words| ==> Proper(options, words[k])
  }

  /** Nothing but the end of the list leaves a value missing. */
  predicate Fitting(words: seq<Word>, rest: seq<string>) {
    forall k :: 0 <= k < |words| && words[k].Missing? ==> k + 1 == |words| && rest == []
  }

  predicate EndsOptions(rest: seq<string>) {
    rest == [] || rest[0] == "--" || !IsOptionWord(rest[0])
  }

  // ---------- What is reported ----------

  /** A known flag is reported as itself. An unknown one is `?`, with its letter
      as the argument when errors are silent. */
  function OfFlag(options: string, c: char): Emission {
    if Knows(options, c) then Emission([c], None) else Emission("?", if Silent(options) then Some([c]) else None)
  }

  function OfFlags(options: string, flags: string): seq<Emission> {
    seq(|flags|, k requires 0 <= k < |flags| => OfFlag(options, flags[k]))
  }

  function OfWord(options: string, w: Word): seq<Emission> {
    OfFlags(options, w.flags) + match w
      case Flags(_) => []
      case Attached(_, c, value) => [Emission([c], Some(value))]
      case Separate(_, c, value) => [Emission([c], Some(value))]
      case Missing(_, c) => [if Silent(options) then Emission(":", Some([c])) else Emission("?", None)]
  }

  function OfWords(options: string, words: seq<Word>): seq<Emission> {
    if words == [] then [] else OfWord(options, words[0]) + OfWords(options, words[1..])
  }

  // ---------- Reading them back ----------

  lemma SpecIs(options: string, c: char)
    ensures
      var spec := SpecOf(options);
      && (c in spec.defs <==> Knows(options, c)) && (Takes(options, c) <==> c in spec.defs && spec.defs[c])
      && (spec.silent <==> Silent(options))
  {
  }

  /** What a scan yields after some emissions. */
  function After(es: seq<Emission>, rest: (seq<Emission>, nat)): (seq<Emission>, nat) {
    (es + rest.0, rest.1)
  }

  lemma AfterCons(e: Emission, es: seq<Emission>, rest: (seq<Emission>, nat))
    ensures After([e] + es, rest) == Emit(e, After(es, rest))
    ensures After([e], rest) == Emit(e, rest)
  {
    assert [e] + es + rest.0 == [e] + (es + rest.0);
  }

  lemma AfterSnoc(es: seq<Emission>, e: Emission, rest: (seq<Emission>, nat))
    ensures After(es, Emit(e, rest)) == After(es + [e], rest)
  {
    assert es + ([e] + rest.0) == es + [e] + rest.0;
  }

  /** The scan of a cluster from character `j` on passes over flags. */
  lemma {:induction false} ScanFlags(options: string, args: seq<string>, i: nat, j: nat, flags: string, more: string)
    requires i < |args| && 1 <= j <= |args[i]| && args[i][j..] == flags + more && flags + more != []
    requires AllFlags(options, flags)
    ensures
      var spec := SpecOf(options);
      ScanCluster(spec, args, i, j)
      == After(OfFlags(options, flags), if more == [] then ScanArgs(spec, args, i + 1) else ScanCluster(spec, args, i, j + |flags|))
    decreases |flags|
  {
    if flags == [] {
      assert flags + more == more && OfFlags(options, flags) == [];
      var rest := ScanCluster(SpecOf(options), args, i, j);
      assert [] + rest.0 == rest.0;
    } else {
      var c := flags[0];
      SpecIs(options, c);
      assert args[i][j] == (flags + more)[0] == c;
      assert args[i][j + 1..] == (flags + more)[1..] == flags[1..] + more;
      FlagsCons(options, flags);
      var spec := SpecOf(options);
      if flags[1..] + more != [] {
        ScanFlags(options, args, i, j + 1, flags[1..], more);
        AfterCons(OfFlag(options, c), OfFlags(options, flags[1..]),
                  if more == [] then ScanArgs(spec, args, i + 1) else ScanCluster(spec, args, i, j + |flags|));
      } else {
        assert |flags[1..] + more| == |flags[1..]| + |more| == 0;
        assert |args[i]| == j + 1;
        assert OfFlags(options, flags) == [OfFlag(options, c)];
        AfterCons(OfFlag(options, c), [], ScanArgs(spec, args, i + 1));
      }
    }
  }

  lemma FlagsCons(options: string, flags: string)
    requires flags != []
    ensures OfFlags(options, flags) == [OfFlag(options, flags[0])] + OfFlags(options, flags[1..])
    ensures |flags| == 1 ==> OfFlags(options, flags[1..]) == []
  {
  }

  /** The scan of one written word. */
  lemma ScanWord(options: string, args: seq<string>, i: nat, w: Word)
    requires Proper(options, w) && i + |Written(w)| <= |args| && args[i..i + |Written(w)|] == Written(w)
    requires w.Missing? ==> i + 1 == |args|
    ensures
      var spec := SpecOf(options);
      ScanArgs(spec, args, i) == After(OfWord(options, w), ScanArgs(spec, args, i + |Written(w)|))
  {
    assert args[i] == args[i..i + |Written(w)|][0] == Written(w)[0];
    if w.Flags? {
      assert args[i][1..] == w.flags + [];
      ScanFlags(options, args, i, 1, w.flags, []);
      assert OfFlags(options, w.flags) + [] == OfFlags(options, w.flags);
    } else {
      var more := [w.c] + if w.Attached? then w.value else [];
      assert args[i][1..] == w.flags + more;
      ScanFlags(options, args, i, 1, w.flags, more);
      ScanValue(options, args, i, 1 + |w.flags|, w);
    }
  }

  /** The scan of the last option of a written word. */
  lemma ScanValue(options: string, args: seq<string>, i: nat, j: nat, w: Word)
    requires !w.Flags? && Takes(options, w.c) && (w.Attached? ==> w.value != [])
    requires i + |Written(w)| <= |args| && args[i..i + |Written(w)|] == Written(w) && j == 1 + |w.flags|
    requires w.Missing? ==> i + 1 == |args|
    ensures
      var spec := SpecOf(options);
      j < |args[i]| && After(OfFlags(options, w.flags), ScanCluster(spec, args, i, j))
      == After(OfWord(options, w), ScanArgs(spec, args, i + |Written(w)|))
  {
    SpecIs(options, w.c);
    var written := args[i..i + |Written(w)|];
    assert args[i] == written[0] == Written(w)[0];
    assert args[i][j] == w.c;
    var flags := OfFlags(options, w.flags);
    var rest := ScanArgs(SpecOf(options), args, i + |Written(w)|);
    if w.Attached? {
      assert args[i][j + 1..] == w.value;
      AfterSnoc(flags, Emission([w.c], Some(w.value)), rest);
    } else if w.Separate? {
      assert args[i + 1] == written[1] == w.value;
      AfterSnoc(flags, Emission([w.c], Some(w.value)), rest);
    } else {
      AfterSnoc(flags, if Silent(options) then Emission(":", Some([w.c])) else Emission("?", None), rest);
    }
  }

  /** The argument list is made of what was read, words and the rest. */
  ghost predicate Line(options: string, args: seq<string>, before: seq<string>, words: seq<Word>, rest: seq<string>) {
    && args == before + WrittenAll(words) + rest
    && AllProper(options, words) && Fitting(words, rest) && EndsOptions(rest)
  }

  lemma LineTail(options: string, args: seq<string>, before: seq<string>, words: seq<Word>, rest: seq<string>)
    requires words != [] && Line(options, args, before, words, rest)
    ensures Line(options, args, before + Written(words[0]), words[1..], rest)
  {
    WrittenPlace(before, words, rest);
    TailProper(options, words, rest);
  }

  lemma LineMissing(options: string, args: seq<string>, before: seq<string>, words: seq<Word>, rest: seq<string>)
    requires words != [] && words[0].Missing? && Line(options, args, before, words, rest)
    ensures |before| + 1 == |args|
  {
    LastMissing(words, rest);
  }

  lemma LineStep(options: string, args: seq<string>, before: seq<string>, words: seq<Word>, rest: seq<string>)
    requires words != [] && Line(options, args, before, words, rest)
    ensures
      var w := words[0];
      && |before| + |Written(w)| <= |args|
      && ScanArgs(SpecOf(options), args, |before|)
         == After(OfWord(options, w), ScanArgs(SpecOf(options), args, |before| + |Written(w)|))
  {
    var w := words[0];
    assert |before| + |Written(w)| <= |args| && args[|before|..|before| + |Written(w)|] == Written(w) by {
      WrittenPlace(before, words, rest);
    }
    if w.Missing? {
      LineMissing(options, args, before, words, rest);
    }
    ScanWord(options, args, |before|, w);
  }

  function Ending(before: nat, words: seq<Word>, rest: seq<string>): nat {
    before + |WrittenAll(words)| + if rest != [] && rest[0] == "--" then 1 else 0
  }

  lemma {:induction false} ScanWords(options: string, args: seq<string>, before: seq<string>, words: seq<Word>, rest: seq<string>)
    requires Line(options, args, before, words, rest)
    ensures ScanArgs(SpecOf(options), args, |before|) == (OfWords(options, words), Ending(|before|, words, rest))
    decreases |words|
  {
    if words == [] {
      ScanEnd(options, args, before, rest);
    } else {
      LineStep(options, args, before, words, rest);
      LineTail(options, args, before, words, rest);
      ScanWords(options, args, before + Written(words[0]), words[1..], rest);
      EndingStep(|before|, words, rest);
    }
  }

  lemma ScanEnd(options: string, args: seq<string>, before: seq<string>, rest: seq<string>)
    requires Line(options, args, before, [], rest)
    ensures ScanArgs(SpecOf(options), args, |before|) == ([], Ending(|before|, [], rest))
  {
    if rest != [] {
      assert args[|before|] == rest[0];
    }
  }

  lemma EndingStep(before: nat, words: seq<Word>, rest: seq<string>)
    requires words != []
    ensures Ending(before, words, rest) == Ending(before + |Written(words[0])|, words[1..], rest)
  {
  }

  lemma TailProper(options: string, words: seq<Word>, rest: seq<string>)
    requires words != [] && AllProper(options, words) && Fitting(words, rest)
    ensures AllProper(options, words[1..]) && Fitting(words[1..], rest)
  {
    assert forall k :: 0 <= k < |words[1..]| ==> words[1..][k] == words[k + 1];
  }

  lemma WrittenPlace(before: seq<string>, words: seq<Word>, rest: seq<string>)
    requires words != []
    ensures
      var args, w := before + WrittenAll(words) + rest, Written(words[0]);
      && |before| + |w| <= |args| && args[|before|..|before| + |w|] == w
      && args == (before + w) + WrittenAll(words[1..]) + rest
  {
    PartsInPlace(before, Written(words[0]), WrittenAll(words[1..]), rest);
  }

  lemma PartsInPlace(before: seq<string>, w: seq<string>, more: seq<string>, rest: seq<string>)
    ensures
      var args := before + (w + more) + rest;
      && |before| + |w| <= |args| && args[|before|..|before| + |w|] == w && args == (before + w) + more + rest
  {
  }

  lemma LastMissing(words: seq<Word>, rest: seq<string>)
    requires words != [] && Fitting(words, rest)
    ensures words[0].Missing? ==> |WrittenAll(words)| == 1 && rest == []
  {
    if words[0].Missing? {
      assert words[1..] == [];
    }
  }

  /** From a fresh start, a `getopts` loop over a written command line reports
      the flags and values written, in order, and leaves OPTIND at what follows
      them, past a `--`. */
  lemma LoopReadsBack(env: Env, options: string, name: string, args: seq<string>, words: seq<Word>, rest: seq<string>)
    requires Line(options, args, [], words, rest)
    requires Admissible(name, args) && OptindOf(env) <= 1 && SavedFor(env) == 1
    ensures
      var (emissions, last) := Loop(env, options, name, args);
      && emissions == OfWords(options, words)
      && OptindOf(last) == |WrittenAll(words)| + (if rest != [] && rest[0] == "--" then 1 else 0) + 1
  {
    ScanWords(options, args, [], words, rest);
    FreshLoopIsScan(env, options, name, args);
  }

  // ---------- Every argument list is written so ----------

  /** Splits a word at its first option that takes an argument. */
  function FlagsBefore(options: string, s: string): (flags: string)
    ensures |flags| <= |s| && s[..|flags|] == flags && AllFlags(options, flags)
    ensures |flags| < |s| ==> Takes(options, s[|flags|])
  {
    if s == [] || Takes(options, s[0]) then []
    else
      var rest := FlagsBefore(options, s[1..]);
      assert s == [s[0]] + s[1..];
      [s[0]] + rest
  }

  function WordAt(options: string, args: seq<string>, i: nat): (w: Word)
    requires i < |args| && IsOptionWord(args[i])
  {
    var s := args[i][1..];
    var flags := FlagsBefore(options, s);
    if |flags| == |s| then Flags(flags)
    else
      var c, value := s[|flags|], s[|flags| + 1..];
      if value != [] then Attached(flags, c, value)
      else if i + 1 < |args| then Separate(flags, c, args[i + 1])
      else Missing(flags, c)
  }

  lemma Joined(s: string, k: nat)
    requires k < |s|
    ensures ['-'] + s[..k] + [s[k]] + s[k + 1..] == ['-'] + s
    ensures k + 1 == |s| ==> ['-'] + s[..k] + [s[k]] == ['-'] + s
  {
  }

  lemma WordAtStarts(options: string, args: seq<string>, i: nat)
    requires i < |args| && IsOptionWord(args[i])
    ensures
      var w := WordAt(options, args, i);
      && Written(w)[0] == args[i] && i + |Written(w)| <= |args| && (|Written(w)| == 2 ==> Written(w)[1] == args[i + 1])
      && (w.Missing? ==> i + 1 == |args|)
  {
    var s := args[i][1..];
    assert args[i] == ['-'] + s;
    var flags := FlagsBefore(options, s);
    if |flags| < |s| {
      Joined(s, |flags|);
    } else {
      assert s[..|s|] == s;
    }
  }

  lemma WordAtIsProper(options: string, args: seq<string>, i: nat)
    requires i < |args| && IsOptionWord(args[i])
    ensures Proper(options, WordAt(options, args, i))
  {
    WordAtStarts(options, args, i);
    assert args[i] != "-" && args[i] != "--";
    assert args[i] == ['-'] + args[i][1..];
  }

  lemma WordAtIsWritten(options: string, args: seq<string>, i: nat)
    requires i < |args| && IsOptionWord(args[i])
    ensures
      var w := WordAt(options, args, i);
      && i + |Written(w)| <= |args| && args[i..i + |Written(w)|] == Written(w) && Proper(options, w)
      && (w.Missing? ==> i + 1 == |args|)
  {
    WordAtStarts(options, args, i);
    WordAtIsProper(options, args, i);
    var n := |Written(WordAt(options, args, i))|;
    assert n == 1 || n == 2;
    assert args[i..i + n][0] == args[i] && (n == 2 ==> args[i..i + n][1] == args[i + 1]);
  }

  function WordsFrom(options: string, args: seq<string>, i: nat): (seq<Word>, seq<string>)
    requires i <= |args|
    decreases |args| - i
  {
    if i == |args| || !IsOptionWord(args[i]) then ([], args[i..])
    else
      WordAtIsWritten(options, args, i);
      var w := WordAt(options, args, i);
      var (words, rest) := WordsFrom(options, args, i + |Written(w)|);
      ([w] + words, rest)
  }

  /** So what a loop reports of any argument list is told by LoopReadsBack. */
  lemma {:induction false} EveryListIsWritten(options: string, args: seq<string>, i: nat)
    requires i <= |args|
    ensures
      var (words, rest) := WordsFrom(options, args, i);
      args[i..] == WrittenAll(words) + rest && AllProper(options, words) && Fitting(words, rest) && EndsOptions(rest)
    decreases |args| - i
  {
    if i < |args| && IsOptionWord(args[i]) {
      WordAtIsWritten(options, args, i);
      var w := WordAt(options, args, i);
      var next := i + |Written(w)|;
      var (words, rest) := WordsFrom(options, args, next);
      EveryListIsWritten(options, args, next);
      WordBefore(options, args, i, next, w, words, rest);
    }
  }

  lemma WordBefore(options: string, args: seq<string>, i: nat, next: nat, w: Word, words: seq<Word>, rest: seq<string>)
    requires i <= next <= |args| && args[i..next] == Written(w) && Proper(options, w)
    requires args[next..] == WrittenAll(words) + rest && AllProper(options, words) && Fitting(words, rest)
    requires w.Missing? ==> next == |args|
    ensures args[i..] == WrittenAll([w] + words) + rest && AllProper(options, [w] + words) && Fitting([w] + words, rest)
  {
    WrittenCons(args, i, next, w, words, rest);
    if w.Missing? {
      NothingWritten(words, rest);
    }
  }

  lemma WrittenCons(args: seq<string>, i: nat, next: nat, w: Word, words: seq<Word>, rest: seq<string>)
    requires i <= next <= |args| && args[i..next] == Written(w) && args[next..] == WrittenAll(words) + rest
    ensures args[i..] == WrittenAll([w] + words) + rest
  {
    assert ([w] + words)[1..] == words;
    InTwo(args, i, next, Written(w), WrittenAll(words), rest);
  }

  lemma InTwo(args: seq<string>, i: nat, next: nat, a: seq<string>, b: seq<string>, rest: seq<string>)
    requires i <= next <= |args| && args[i..next] == a && args[next..] == b + rest
    ensures args[i..] == a + b + rest
  {
    assert args[i..] == args[i..next] + args[next..];
  }

  lemma NothingWritten(words: seq<Word>, rest: seq<string>)
    ensures words != [] || rest != [] ==> WrittenAll(words) + rest != []
  {
    if words != [] {
      assert Written(words[0]) != [];
    }
  }
}
