/** What each line of an edit is read as, from the lines before it alone, and
    the sections and operations that come out. */
module EditRoles {
  import opened Options
  import opened TextLines
  import opened EditBoundary

  /** What a line is: blank before anything else, a patch mark, the header of a
      section, an operation, payload, blank between operations, or an error. */
  datatype Role = Lead | Mark | Head | Insertion | Replacement | Payload | Gap | Bad

  predicate InOperation(roles: seq<Role>) {
    roles != [] && roles[|roles| - 1] in {Insertion, Replacement, Payload}
  }

  predicate OwesPayload(roles: seq<Role>) {
    roles != [] && roles[|roles| - 1] == Insertion
  }

  predicate OnlyLead(roles: seq<Role>) {
    forall k :: 0 <= k < |roles| ==> roles[k] == Lead
  }

  predicate MarksPatch(g: Grammar, raw: string) {
    g.beginPatch(raw) || g.endPatch(raw)
  }

  /** After an insertion only payload can come. In an operation every line that
      starts with no operation character is payload, blank ones too. */
  function RoleAfter(g: Grammar, roles: seq<Role>, raw: string): Role {
    if OnlyLead(roles) && g.blank(raw) then Lead
    else if OwesPayload(roles) then
      if MarksPatch(g, raw) || g.header(raw).Some? || g.marker(raw) then Bad else Payload
    else if MarksPatch(g, raw) then Mark
    else if g.header(raw).Some? then Head
    else if Head !in roles then Bad
    else if InOperation(roles) && !g.marker(raw) then Payload
    else if g.blank(raw) then Gap
    else if g.insert(raw) then Insertion
    else if g.replace(raw).Some? then Replacement
    else Bad
  }

  function Roles(g: Grammar, lines: seq<string>): (roles: seq<Role>)
    ensures |roles| == |lines|
  {
    if lines == [] then []
    else
      var front := Roles(g, lines[..|lines| - 1]);
      front + [RoleAfter(g, front, lines[|lines| - 1])]
  }

  /** The parser's flags say what the roles say. */
  ghost predicate Agrees(s: State, roles: seq<Role>) {
    && !s.stopped && Bad !in roles
    && (s.seen <==> !OnlyLead(roles)) && (s.sections != [] <==> Head in roles)
    && (s.allowed <==> InOperation(roles)) && (Pending(s) <==> OwesPayload(roles))
    && (InOperation(roles) ==> Head in roles)
  }

  lemma RoleStep(g: Grammar, s: State, roles: seq<Role>, raw: string, end: nat)
    requires Agrees(s, roles)
    ensures
      var r, t := RoleAfter(g, roles, raw), TakeLine(g, s, raw, end);
      && (r == Bad <==> t.stopped)
      && (r != Bad ==> Agrees(t, roles + [r]) && t.parsedEnd == if r == Insertion then s.parsedEnd else end)
  {
    var r := RoleAfter(g, roles, raw);
    assert (roles + [r])[|roles|] == r;
    assert OnlyLead(roles + [r]) <==> OnlyLead(roles) && r == Lead;
  }

  lemma {:induction false} AgreesOrStops(g: Grammar, lines: seq<string>)
    ensures Take(g, lines).stopped <==> Bad in Roles(g, lines)
    ensures !Take(g, lines).stopped ==> Agrees(Take(g, lines), Roles(g, lines))
  {
    if lines != [] {
      var front, last := lines[..|lines| - 1], lines[|lines| - 1];
      AgreesOrStops(g, front);
      if !Take(g, front).stopped {
        RoleStep(g, Take(g, front), Roles(g, front), last, Width(lines));
      }
    }
  }

  /** Lines are read to their end exactly when none of them is out of place, and
      are complete exactly when they do not end in an insertion as well. */
  lemma AcceptedExactly(g: Grammar, lines: seq<string>)
    ensures !Take(g, lines).stopped <==> Bad !in Roles(g, lines)
    ensures WellFormed(g, lines) <==> Bad !in Roles(g, lines) && !OwesPayload(Roles(g, lines))
  {
    AgreesOrStops(g, lines);
  }

  // ---------- Sections ----------

  function CountOps(roles: seq<Role>): nat {
    if roles == [] then 0
    else CountOps(roles[..|roles| - 1]) + if roles[|roles| - 1] in {Insertion, Replacement} then 1 else 0
  }

  function CountPayload(roles: seq<Role>): nat {
    if roles == [] then 0
    else CountPayload(roles[..|roles| - 1]) + if roles[|roles| - 1] == Payload then 1 else 0
  }

  /** Lines that the replacements among the lines delete. */
  function Deleted(g: Grammar, lines: seq<string>, roles: seq<Role>): nat
    requires |lines| == |roles|
  {
    if roles == [] then 0
    else
      var n := |roles| - 1;
      Deleted(g, lines[..n], roles[..n])
      + if roles[n] == Replacement && g.replace(lines[n]).Some? then g.replace(lines[n]).value else 0
  }

  /** The section a header opens, from the lines after it. */
  function SectionOf(g: Grammar, header: string, lines: seq<string>, roles: seq<Role>): Section
    requires |lines| == |roles|
  {
    Section(g.header(header).GetOr(""), CountOps(roles), CountPayload(roles), Deleted(g, lines, roles))
  }

  /** Whether the line at `h` opens the last section. */
  predicate LastHead(roles: seq<Role>, h: nat) {
    h < |roles| && roles[h] == Head && forall k :: h < k < |roles| ==> roles[k] != Head
  }

  lemma SectionStep(g: Grammar, s: State, roles: seq<Role>, raw: string, end: nat)
    requires Agrees(s, roles) && RoleAfter(g, roles, raw) != Bad
    ensures
      var sections, r := TakeLine(g, s, raw, end).sections, RoleAfter(g, roles, raw);
      match r
      case Head => sections == s.sections + [Section(g.header(raw).GetOr(""), 0, 0, 0)]
      case Payload => s.sections != [] && sections == MorePayload(s.sections)
      case Insertion => s.sections != [] && sections == MoreOps(s.sections, 0)
      case Replacement => s.sections != [] && g.replace(raw).Some? && sections == MoreOps(s.sections, g.replace(raw).value)
      case _ => sections == s.sections
  {
  }

  /** A section with one more line of a role. */
  function Extended(g: Grammar, a: Section, r: Role, raw: string): Section {
    a.(ops := a.ops + (if r in {Insertion, Replacement} then 1 else 0),
       payload := a.payload + (if r == Payload then 1 else 0),
       deleted := a.deleted + if r == Replacement && g.replace(raw).Some? then g.replace(raw).value else 0)
  }

  lemma LastChanged(init: seq<Section>, a: Section, deleted: nat)
    ensures MorePayload(init + [a]) == init + [a.(payload := a.payload + 1)]
    ensures MoreOps(init + [a], deleted) == init + [a.(ops := a.ops + 1, deleted := a.deleted + deleted)]
  {
  }

  lemma SectionGrows(g: Grammar, s: State, roles: seq<Role>, raw: string, end: nat, init: seq<Section>, a: Section)
    requires Agrees(s, roles) && s.sections == init + [a]
    requires RoleAfter(g, roles, raw) != Bad && RoleAfter(g, roles, raw) != Head
    ensures TakeLine(g, s, raw, end).sections == init + [Extended(g, a, RoleAfter(g, roles, raw), raw)]
  {
    SectionStep(g, s, roles, raw, end);
    LastChanged(init, a, if g.replace(raw).Some? then g.replace(raw).value else 0);
    LastChanged(init, a, 0);
  }

  /** The last section counts the operations, the payload and the deleted lines
      after its header; the sections before it are those of the lines before. */
  lemma {:induction false} SectionsExactly(g: Grammar, lines: seq<string>, h: nat)
    requires Bad !in Roles(g, lines) && LastHead(Roles(g, lines), h)
    ensures
      var roles := Roles(g, lines);
      Take(g, lines).sections == Take(g, lines[..h]).sections + [SectionOf(g, lines[h], lines[h + 1..], roles[h + 1..])]
  {
    var n := |lines| - 1;
    var front, roles := lines[..n], Roles(g, lines);
    assert roles[..n] == Roles(g, front);
    AgreesOrStops(g, front);
    if h == n {
      SectionStep(g, Take(g, front), Roles(g, front), lines[n], Width(lines));
      assert roles[h + 1..] == [] && lines[h + 1..] == [];
    } else {
      SectionsExactly(g, front, h);
      assert front[..h] == lines[..h];
      SectionSnoc(g, lines, roles, h);
      SectionGrows(g, Take(g, front), Roles(g, front), lines[n], Width(lines), Take(g, lines[..h]).sections,
                   SectionOf(g, lines[h], front[h + 1..], roles[..n][h + 1..]));
    }
  }

  lemma SectionSnoc(g: Grammar, lines: seq<string>, roles: seq<Role>, h: nat)
    requires |lines| == |roles| && h + 1 < |roles|
    ensures
      var n := |lines| - 1;
      var a, b := SectionOf(g, lines[h], lines[..n][h + 1..], roles[..n][h + 1..]), SectionOf(g, lines[h], lines[h + 1..], roles[h + 1..]);
      b == Extended(g, a, roles[n], lines[n])
  {
    var n := |lines| - 1;
    assert lines[h + 1..][..n - h - 1] == lines[..n][h + 1..];
    assert roles[h + 1..][..n - h - 1] == roles[..n][h + 1..];
  }
}
