/** Reading one line character by character: escapes, a delimiter, a limit, and
    the events that end input early. */
module ReadLine {
  import opened Options

  const BACKSLASH: char := '\\'
  const CTRL_C: char := 3 as char
  const CTRL_D: char := 4 as char

  datatype InputEvent = Char(ch: char) | Eof | Timeout | CtrlC | CtrlD

  datatype ReadResult =
    | Line(line: string)
    | AtEof(partial: Option<string>)
    | Interrupted
    | TimedOut(partial: Option<string>)

  datatype Config = Config(delimiter: Option<char>, limit: Option<nat>, escapes: bool)

  predicate IsDelimiter(cfg: Config, ch: char) {
    cfg.delimiter == Some(ch)
  }

  /** ASCII control characters other than whitespace are ignored. */
  predicate IsIgnored(ch: char) {
    (ch as int < 32 || ch as int == 127) && ch as int !in {9, 10, 12, 13}
  }

  /** Bytes a character takes in the line: input bytes from 128 on are stored as
      two-byte characters. */
  function Width(ch: char): nat {
    if ch as int < 128 then 1 else 2
  }

  function LineWidth(s: string): nat {
    if s == [] then 0 else LineWidth(s[..|s| - 1]) + Width(s[|s| - 1])
  }

  function NonEmpty(s: string): Option<string> {
    if s == [] then None else Some(s)
  }

  // ---------- The reference: tokens first, then the cut ----------

  datatype Token =
    | Plain(ch: char)
    | Escaped(ch: char)
    | End(event: InputEvent, pending: bool)

  /** Pass one: escapes resolved, up to the first event that is no character.
      Input that runs out ends in Eof. */
  function Tokenise(escapes: bool, events: seq<InputEvent>): seq<Token> {
    if events == [] then [End(Eof, false)]
    else if !events[0].Char? then [End(events[0], false)]
    else if !(escapes && events[0].ch == BACKSLASH) then [Plain(events[0].ch)] + Tokenise(escapes, events[1..])
    else if |events| == 1 then [End(Eof, true)]
    else if !events[1].Char? then [End(events[1], true)]
    else [Escaped(events[1].ch)] + Tokenise(escapes, events[2..])
  }

  /** Pass two, one token: what it adds to the line, or nothing. */
  function Output(cfg: Config, t: Token): string {
    match t
    case Plain(ch) => if IsIgnored(ch) then "" else [ch]
    case Escaped(ch) => if IsDelimiter(cfg, ch) then "" else [ch]
    case End(_, _) => ""
  }

  /** The first token that ends the line: an unescaped delimiter or an event. */
  predicate Ends(cfg: Config, t: Token) {
    t.End? || (t.Plain? && IsDelimiter(cfg, t.ch))
  }

  /** The output of the tokens before the ending one, and that one. */
  function CutTokens(cfg: Config, tokens: seq<Token>): (string, Token) {
    if tokens == [] then ("", End(Eof, false))
    else if Ends(cfg, tokens[0]) then ("", tokens[0])
    else
      var (out, last) := CutTokens(cfg, tokens[1..]);
      (Output(cfg, tokens[0]) + out, last)
  }

  /** The result of a line that no limit cut short. */
  function Finish(out: string, last: Token): ReadResult {
    match last
    case Plain(_) => Line(out)
    case Escaped(_) => Line(out)
    case End(event, pending) =>
      match event
      case Char(_) => Line(out)
      case Eof => AtEof(NonEmpty(out))
      case Timeout => TimedOut(NonEmpty(if pending then out + [BACKSLASH] else out))
      case CtrlC => Interrupted
      case CtrlD => if out == "" && !pending then AtEof(None) else Line(out)
  }

  /** The shortest non-empty prefix that is at least `limit` wide, or nothing. */
  function Limited(out: string, limit: Option<nat>): Option<string>
    decreases |out|
  {
    if out == [] || limit.None? then None
    else
      match Limited(out[..|out| - 1], limit)
      case Some(p) => Some(p)
      case None => if LineWidth(out) >= limit.value then Some(out) else None
  }

  function ReadSpec(cfg: Config, events: seq<InputEvent>): ReadResult {
    var (out, last) := CutTokens(cfg, Tokenise(cfg.escapes, events));
    match Limited(out, cfg.limit)
    case Some(p) => Line(p)
    case None => Finish(out, last)
  }

  // ---------- The loop ----------

  /** The input still to come, a consumed backslash put back. */
  ghost function Upcoming(pending: bool, rest: seq<InputEvent>): seq<InputEvent> {
    if pending then [Char(BACKSLASH)] + rest else rest
  }

  ghost function Gather(cfg: Config, line: string, events: seq<InputEvent>): (string, Token) {
    var (out, last) := CutTokens(cfg, Tokenise(cfg.escapes, events));
    (line + out, last)
  }

  lemma {:induction false} LimitedLonger(out: string, more: string, limit: Option<nat>)
    requires Limited(out, limit).Some?
    ensures Limited(out + more, limit) == Limited(out, limit)
    decreases |more|
  {
    if more == [] {
      assert out + more == out;
    } else {
      assert (out + more)[..|out + more| - 1] == out + more[..|more| - 1];
      LimitedLonger(out, more[..|more| - 1], limit);
    }
  }

  lemma TokeniseStep(escapes: bool, pending: bool, ch: char, rest: seq<InputEvent>)
    requires pending ==> escapes
    ensures
      var upcoming := Upcoming(pending, [Char(ch)] + rest);
      Tokenise(escapes, upcoming) ==
        if pending then [Escaped(ch)] + Tokenise(escapes, rest)
        else if escapes && ch == BACKSLASH then Tokenise(escapes, Upcoming(true, rest))
        else [Plain(ch)] + Tokenise(escapes, rest)
  {
    var events := [Char(ch)] + rest;
    assert events[1..] == rest;
    if pending {
      assert ([Char(BACKSLASH)] + events)[2..] == rest;
    }
  }

  lemma TokeniseEnd(escapes: bool, pending: bool, rest: seq<InputEvent>)
    requires pending ==> escapes
    requires rest == [] || !rest[0].Char?
    ensures Tokenise(escapes, Upcoming(pending, rest)) == [End(if rest == [] then Eof else rest[0], pending)]
  {
  }

  lemma AppendAssociative(a: string, b: string, c: string)
    ensures (a + b) + c == a + (b + c)
  {
  }

  /** How one character moves the loop, in terms of what is gathered in all. */
  lemma GatherStep(cfg: Config, line: string, pending: bool, ch: char, rest: seq<InputEvent>)
    requires pending ==> cfg.escapes
    ensures
      var t := if pending then Escaped(ch) else Plain(ch);
      Gather(cfg, line, Upcoming(pending, [Char(ch)] + rest)) ==
        if !pending && cfg.escapes && ch == BACKSLASH then Gather(cfg, line, Upcoming(true, rest))
        else if Ends(cfg, t) then (line, t)
        else Gather(cfg, line + Output(cfg, t), rest)
  {
    TokeniseStep(cfg.escapes, pending, ch, rest);
    var t := if pending then Escaped(ch) else Plain(ch);
    var tokens := Tokenise(cfg.escapes, rest);
    assert ([t] + tokens)[1..] == tokens;
    AppendAssociative(line, Output(cfg, t), CutTokens(cfg, tokens).0);
    assert line + "" == line;
  }

  lemma GatherEnd(cfg: Config, line: string, pending: bool, rest: seq<InputEvent>)
    requires pending ==> cfg.escapes
    requires rest == [] || !rest[0].Char?
    ensures Gather(cfg, line, Upcoming(pending, rest)) == (line, End(if rest == [] then Eof else rest[0], pending))
  {
    TokeniseEnd(cfg.escapes, pending, rest);
    assert line + "" == line;
  }

  /** A line that has just reached the limit is the result. */
  lemma LimitReached(cfg: Config, line: string, ch: char, rest: seq<InputEvent>)
    requires Limited(line, cfg.limit) == None
    ensures
      var reached := cfg.limit.Some? && LineWidth(line + [ch]) >= cfg.limit.value;
      && Limited(line + [ch], cfg.limit) == (if reached then Some(line + [ch]) else None)
      && (reached ==> Limited(Gather(cfg, line + [ch], rest).0, cfg.limit) == Some(line + [ch]))
  {
    var out := line + [ch];
    assert out[..|out| - 1] == line;
    if Limited(out, cfg.limit).Some? {
      LimitedLonger(out, CutTokens(cfg, Tokenise(cfg.escapes, rest)).0, cfg.limit);
    }
  }

  method ReadLineWithReader(cfg: Config, events: seq<InputEvent>) returns (result: ReadResult)
    ensures result == ReadSpec(cfg, events)
  {
    var line := "";
    var pendingBackslash := false;
    ghost var (out, last) := CutTokens(cfg, Tokenise(cfg.escapes, events));
    var i := 0;
    assert events[0..] == events && "" + out == out;
    while true
      invariant i <= |events| && (pendingBackslash ==> cfg.escapes)
      invariant Limited(line, cfg.limit) == None
      invariant Gather(cfg, line, Upcoming(pendingBackslash, events[i..])) == (out, last)
      decreases |events| - i
    {
      var event := if i < |events| then events[i] else Eof;
      if !event.Char? {
        GatherEnd(cfg, line, pendingBackslash, events[i..]);
      }
      match event {
        case Eof =>
          return AtEof(NonEmpty(line));
        case Timeout =>
          if pendingBackslash {
            line := line + [BACKSLASH];
          }
          return TimedOut(NonEmpty(line));
        case CtrlC =>
          return Interrupted;
        case CtrlD =>
          return if line == "" && !pendingBackslash then AtEof(None) else Line(line);
        case Char(ch) =>
          ghost var rest := events[i + 1..];
          assert events[i..] == [Char(ch)] + rest;
          GatherStep(cfg, line, pendingBackslash, ch, rest);
          LimitReached(cfg, line, ch, rest);
          i := i + 1;
          if cfg.escapes {
            if pendingBackslash {
              pendingBackslash := false;
              if IsDelimiter(cfg, ch) {
                assert line + "" == line;
                continue;
              }
              line := line + [ch];
              if cfg.limit.Some? && LineWidth(line) >= cfg.limit.value {
                return Line(line);
              }
              continue;
            }
            if ch == BACKSLASH {
              pendingBackslash := true;
              continue;
            }
          }
          if IsDelimiter(cfg, ch) {
            return Line(line);
          }
          if IsIgnored(ch) {
            assert line + "" == line;
            continue;
          }
          line := line + [ch];
          if cfg.limit.Some? && LineWidth(line) >= cfg.limit.value {
            return Line(line);
          }
      }
    }
  }

  // ---------- Main results ----------

  /** How the terminal hands over a byte. */
  function EventOf(ch: char): InputEvent {
    if ch == CTRL_C then CtrlC else if ch == CTRL_D then CtrlD else Char(ch)
  }

  function EventsOf(s: string): seq<InputEvent> {
    seq(|s|, i requires 0 <= i < |s| => EventOf(s[i]))
  }

  /** A backslash before every character. */
  function Escape(s: string): string {
    if s == [] then [] else [BACKSLASH, s[0]] + Escape(s[1..])
  }

  function Without(s: string, d: char): string {
    if s == [] then [] else (if s[0] == d then [] else [s[0]]) + Without(s[1..], d)
  }

  predicate NoControl(s: string) {
    forall i :: 0 <= i < |s| ==> s[i] != CTRL_C && s[i] != CTRL_D
  }

  lemma {:induction false} EscapedGather(s: string, d: char, tail: seq<InputEvent>)
    requires NoControl(s)
    ensures
      var cfg := Config(Some(d), None, true);
      var (out, last) := CutTokens(cfg, Tokenise(true, tail));
      CutTokens(cfg, Tokenise(true, EventsOf(Escape(s)) + tail)) == (Without(s, d) + out, last)
  {
    var cfg := Config(Some(d), None, true);
    if s == [] {
      assert EventsOf(Escape(s)) + tail == tail;
      assert "" + CutTokens(cfg, Tokenise(true, tail)).0 == CutTokens(cfg, Tokenise(true, tail)).0;
    } else {
      var rest := EventsOf(Escape(s[1..])) + tail;
      assert EventsOf(Escape(s)) + tail == Upcoming(true, [Char(s[0])] + rest);
      TokeniseStep(true, true, s[0], rest);
      EscapedGather(s[1..], d, tail);
      var t := Escaped(s[0]);
      var tokens := Tokenise(true, rest);
      assert ([t] + tokens)[1..] == tokens;
      AppendAssociative(Output(cfg, t), Without(s[1..], d), CutTokens(cfg, Tokenise(true, tail)).0);
    }
  }

  /** The delimiter alone: an unescaped delimiter, an event, or an open escape. */
  lemma DelimiterCut(d: char, escapes: bool)
    ensures
      CutTokens(Config(Some(d), None, escapes), Tokenise(escapes, [EventOf(d)]))
      == ("", if escapes && d == BACKSLASH then End(Eof, true) else if EventOf(d).Char? then Plain(d) else End(EventOf(d), false))
  {
    var e := EventOf(d);
    assert [e] == Upcoming(false, [e] + []);
    if e.Char? {
      TokeniseStep(escapes, false, d, []);
      if escapes && d == BACKSLASH {
        TokeniseEnd(escapes, true, []);
      }
    }
  }

  /** A text written with every character escaped, then the delimiter, reads
      back without the delimiters in it, unless the delimiter is the backslash
      or one of the two characters that are events of their own. */
  lemma EscapeRoundTrip(s: string, d: char)
    requires NoControl(s)
    ensures
      var result, kept := ReadSpec(Config(Some(d), None, true), EventsOf(Escape(s) + [d])), Without(s, d);
      result == if d == BACKSLASH then AtEof(NonEmpty(kept))
                else if d == CTRL_C then Interrupted
                else if d == CTRL_D && s == "" then AtEof(None)
                else Line(kept)
  {
    assert EventsOf(Escape(s) + [d]) == EventsOf(Escape(s)) + [EventOf(d)];
    EscapedGather(s, d, [EventOf(d)]);
    DelimiterCut(d, true);
    assert Without(s, d) + "" == Without(s, d);
    assert Limited(Without(s, d), None) == None;
    if d == CTRL_D {
      WithoutAbsent(s, d);
    }
  }

  lemma {:induction false} WithoutAbsent(s: string, d: char)
    ensures Without(s, d) == s <==> d !in s
    ensures |Without(s, d)| <= |s|
  {
    if s != [] {
      WithoutAbsent(s[1..], d);
      assert s == [s[0]] + s[1..];
    }
  }

  predicate Ascii(s: string) {
    forall i :: 0 <= i < |s| ==> s[i] as int < 128
  }

  predicate AsciiEvents(events: seq<InputEvent>) {
    forall i :: 0 <= i < |events| && events[i].Char? ==> events[i].ch as int < 128
  }

  lemma {:induction false} AsciiWidth(s: string)
    requires Ascii(s)
    ensures LineWidth(s) == |s|
  {
    if s != [] {
      AsciiWidth(s[..|s| - 1]);
    }
  }

  lemma {:induction false} AsciiLimited(out: string, limit: nat)
    requires Ascii(out)
    ensures
      var n := if limit == 0 then 1 else limit;
      Limited(out, Some(limit)) == if |out| >= n then Some(out[..n]) else None
    decreases |out|
  {
    AsciiWidth(out);
    if out != [] {
      var front := out[..|out| - 1];
      AsciiLimited(front, limit);
      var n := if limit == 0 then 1 else limit;
      if |front| >= n {
        assert front[..n] == out[..n];
      } else if |out| >= n {
        assert out[..n] == out;
      }
    }
  }

  /** The text of a result that has one. */
  function TextOf(r: ReadResult): Option<string> {
    match r
    case Line(s) => Some(s)
    case AtEof(p) => Some(p.GetOr(""))
    case _ => None
  }

  lemma AsciiAppend(a: string, b: string)
    requires Ascii(a) && Ascii(b)
    ensures Ascii(a + b)
  {
  }

  lemma {:induction false} AsciiOutput(cfg: Config, events: seq<InputEvent>)
    requires AsciiEvents(events)
    ensures Ascii(CutTokens(cfg, Tokenise(cfg.escapes, events)).0)
    decreases |events|
  {
    if events != [] && events[0].Char? {
      if !(cfg.escapes && events[0].ch == BACKSLASH) {
        AsciiOutput(cfg, events[1..]);
        AsciiToken(cfg, Plain(events[0].ch), Tokenise(cfg.escapes, events[1..]));
      } else if |events| > 1 && events[1].Char? {
        AsciiOutput(cfg, events[2..]);
        AsciiToken(cfg, Escaped(events[1].ch), Tokenise(cfg.escapes, events[2..]));
      }
    }
  }

  lemma AsciiToken(cfg: Config, t: Token, tokens: seq<Token>)
    requires !t.End? && t.ch as int < 128
    requires Ascii(CutTokens(cfg, tokens).0)
    ensures Ascii(CutTokens(cfg, [t] + tokens).0)
  {
    assert ([t] + tokens)[1..] == tokens;
    AsciiAppend(Output(cfg, t), CutTokens(cfg, tokens).0);
  }

  /** On ASCII input whose unlimited read ends in a line or at end of file, a
      limit of n returns the first n characters of that read; a limit of zero
      acts as one. */
  lemma LimitIsPrefix(cfg: Config, events: seq<InputEvent>, limit: nat)
    requires cfg.limit == None
    requires AsciiEvents(events)
    requires TextOf(ReadSpec(cfg, events)).Some?
    ensures
      var full := TextOf(ReadSpec(cfg, events)).value;
      var n := if limit == 0 then 1 else limit;
      TextOf(ReadSpec(cfg.(limit := Some(limit)), events)) == Some(if |full| >= n then full[..n] else full)
  {
    var limited := cfg.(limit := Some(limit));
    var (out, last) := CutTokens(cfg, Tokenise(cfg.escapes, events));
    SameCut(cfg, limited, Tokenise(cfg.escapes, events));
    AsciiOutput(cfg, events);
    AsciiLimited(out, limit);
    assert Limited(out, None) == None;
  }

  lemma {:induction false} SameCut(a: Config, b: Config, tokens: seq<Token>)
    requires a.delimiter == b.delimiter
    ensures CutTokens(a, tokens) == CutTokens(b, tokens)
  {
    if tokens != [] {
      SameCut(a, b, tokens[1..]);
    }
  }
}
