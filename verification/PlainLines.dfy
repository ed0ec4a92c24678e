/** Reading text that holds no escapes: what of it reaches the line. */
module PlainLines {
  import opened Options
  import opened ReadLine

  /** Spaces, tabs, line ends, printable ASCII and all beyond ASCII. */
  predicate Visible(ch: char) {
    || ch as int >= 128 || 32 <= ch as int < 127
    || ch == '\t' || ch == '\n' || ch == '\r' || ch as int == 12
  }

  /** The characters of a text that are kept, in order. */
  function Kept(s: string): string {
    if s == [] then [] else (if Visible(s[0]) then [s[0]] else []) + Kept(s[1..])
  }

  /** A text is kept as it is exactly when all of it is visible. */
  lemma {:induction false} KeptAll(s: string)
    ensures Kept(s) == s <==> forall i :: 0 <= i < |s| ==> Visible(s[i])
    ensures |Kept(s)| <= |s|
  {
    if s != [] {
      KeptAll(s[1..]);
      assert s == [s[0]] + s[1..];
      assert forall i :: 1 <= i < |s| ==> s[i] == s[1..][i - 1];
      assert (forall i :: 0 <= i < |s| ==> Visible(s[i])) ==> forall i :: 0 <= i < |s[1..]| ==> Visible(s[1..][i]);
    }
  }

  /** No character of the text is the delimiter, an event, or an escape. */
  predicate Plainly(s: string, d: char, escapes: bool) {
    NoControl(s) && d !in s && (escapes ==> BACKSLASH !in s)
  }

  lemma {:induction false} PlainGather(s: string, d: char, escapes: bool, tail: seq<InputEvent>)
    requires Plainly(s, d, escapes)
    ensures
      var cfg := Config(Some(d), None, escapes);
      var (out, last) := CutTokens(cfg, Tokenise(escapes, tail));
      CutTokens(cfg, Tokenise(escapes, EventsOf(s) + tail)) == (Kept(s) + out, last)
  {
    var cfg := Config(Some(d), None, escapes);
    if s == [] {
      assert EventsOf(s) + tail == tail;
      assert "" + CutTokens(cfg, Tokenise(escapes, tail)).0 == CutTokens(cfg, Tokenise(escapes, tail)).0;
    } else {
      var rest := EventsOf(s[1..]) + tail;
      assert EventsOf(s) + tail == Upcoming(false, [Char(s[0])] + rest);
      TokeniseStep(escapes, false, s[0], rest);
      PlainGather(s[1..], d, escapes, tail);
      var t := Plain(s[0]);
      var tokens := Tokenise(escapes, rest);
      assert ([t] + tokens)[1..] == tokens;
      assert Output(cfg, t) == if Visible(s[0]) then [s[0]] else [];
      AppendAssociative(Output(cfg, t), Kept(s[1..]), CutTokens(cfg, Tokenise(escapes, tail)).0);
    }
  }

  /** A text without escapes and delimiters, then the delimiter, reads back
      without its control characters other than white space. */
  lemma PlainReadsBack(s: string, d: char, escapes: bool)
    requires Plainly(s, d, escapes)
    ensures
      var result, kept := ReadSpec(Config(Some(d), None, escapes), EventsOf(s + [d])), Kept(s);
      result == if escapes && d == BACKSLASH then AtEof(NonEmpty(kept))
                else if d == CTRL_C then Interrupted
                else if d == CTRL_D && kept == "" then AtEof(None)
                else Line(kept)
  {
    assert EventsOf(s + [d]) == EventsOf(s) + [EventOf(d)];
    PlainGather(s, d, escapes, [EventOf(d)]);
    DelimiterCut(d, escapes);
    assert Kept(s) + "" == Kept(s);
    assert Limited(Kept(s), None) == None;
  }
}
