/** Pairing of tool calls with their results, over session logs read in turn up
    to a limit. */
module ToolLog {
  import opened Options

  datatype Call = Call(id: string, name: string, arguments: string)

  datatype Result = Result(id: string, name: string, isError: bool, text: string)

  /** A log entry: the calls of an assistant message, or one result. */
  datatype Entry = Assistant(calls: seq<Call>) | ToolResult(result: Result) | Other

  datatype Invocation = Invocation(call: Call, result: Option<Result>)

  datatype Config = Config(maxItems: int, countsCalls: bool, includeUnresolved: bool)

  datatype Event = Called(call: Call) | Answered(result: Result)

  // ---------------------------------------------------- what there is to pair

  /** The calls and results of the wanted tools, in order. */
  function EventsOf(entry: Entry, wanted: string -> bool): seq<Event> {
    match entry
    case Assistant(calls) => CallsOf(calls, wanted)
    case ToolResult(r) => if wanted(r.name) then [Answered(r)] else []
    case Other => []
  }

  function CallsOf(calls: seq<Call>, wanted: string -> bool): seq<Event> {
    if calls == [] then [] else
    var front, last := CallsOf(calls[..|calls| - 1], wanted), calls[|calls| - 1];
    if wanted(last.name) then front + [Called(last)] else front
  }

  function Events(entries: seq<Entry>, wanted: string -> bool): seq<Event> {
    if entries == [] then []
    else Events(entries[..|entries| - 1], wanted) + EventsOf(entries[|entries| - 1], wanted)
  }

  // ------------------------------------------------------------- the pairing

  /** The call of an id that is still unanswered: its last event is that call. */
  function Open(events: seq<Event>, id: string): Option<Call> {
    if events == [] then None else
    match events[|events| - 1]
    case Called(c) => if c.id == id then Some(c) else Open(events[..|events| - 1], id)
    case Answered(r) => if r.id == id then None else Open(events[..|events| - 1], id)
  }

  /** The reference: each result answers the open call of its id, if any. */
  function Matched(events: seq<Event>): seq<Invocation> {
    if events == [] then [] else
    var front, last := events[..|events| - 1], events[|events| - 1];
    if last.Answered? && Open(front, last.result.id).Some?
    then Matched(front) + [Invocation(Open(front, last.result.id).value, Some(last.result))]
    else Matched(front)
  }

  /** Calls waiting for a result: a map in the order its keys were first put in. */
  type Waiting = seq<Call>

  function Find(waiting: Waiting, id: string): Option<Call> {
    if waiting == [] then None
    else if waiting[|waiting| - 1].id == id then Some(waiting[|waiting| - 1])
    else Find(waiting[..|waiting| - 1], id)
  }

  function Put(waiting: Waiting, c: Call): Waiting {
    if waiting == [] then [c]
    else
      var front, last := waiting[..|waiting| - 1], waiting[|waiting| - 1];
      if last.id == c.id then front + [c]
      else if Find(front, c.id).Some? then Put(front, c) + [last]
      else waiting + [c]
  }

  function Drop(waiting: Waiting, id: string): Waiting {
    if waiting == [] then []
    else
      var front, last := waiting[..|waiting| - 1], waiting[|waiting| - 1];
      if last.id == id then front else Drop(front, id) + [last]
  }

  /** The calls still waiting after the events. */
  function Left(events: seq<Event>): Waiting {
    if events == [] then [] else
    var waiting := Left(events[..|events| - 1]);
    match events[|events| - 1]
    case Called(c) => Put(waiting, c)
    case Answered(r) => Drop(waiting, r.id)
  }

  function Unanswered(waiting: Waiting): seq<Invocation> {
    seq(|waiting|, i requires 0 <= i < |waiting| => Invocation(waiting[i], None))
  }

  /** Everything a log holds, and all logs in turn. */
  function OfLog(entries: seq<Entry>, wanted: string -> bool, cfg: Config): seq<Invocation> {
    var events := Events(entries, wanted);
    Matched(events) + if cfg.includeUnresolved then Unanswered(Left(events)) else []
  }

  function OfLogs(logs: seq<seq<Entry>>, wanted: string -> bool, cfg: Config): seq<Invocation> {
    if logs == [] then [] else OfLogs(logs[..|logs| - 1], wanted, cfg) + OfLog(logs[|logs| - 1], wanted, cfg)
  }

  // --------------------------------------------------------------- the limit

  function WeightOf(i: Invocation, cfg: Config): nat {
    if cfg.countsCalls then 1 else if i.result.Some? then 2 else 1
  }

  function Weight(all: seq<Invocation>, cfg: Config): nat {
    if all == [] then 0 else Weight(all[..|all| - 1], cfg) + WeightOf(all[|all| - 1], cfg)
  }

  /** The shortest non-empty prefix as heavy as the limit, or everything. */
  function Cut(all: seq<Invocation>, cfg: Config): seq<Invocation> {
    if all == [] then [] else
    var front := Cut(all[..|all| - 1], cfg);
    if front != [] && Weight(front, cfg) >= cfg.maxItems then front else all
  }

  /** No limit has been reached. */
  predicate Below(all: seq<Invocation>, cfg: Config) {
    all == [] || Weight(all, cfg) < cfg.maxItems
  }

  lemma {:induction false} CutSound(all: seq<Invocation>, cfg: Config)
    ensures Cut(all, cfg) <= all && (all != [] ==> Cut(all, cfg) != [])
    ensures Cut(all, cfg) != all ==> Weight(Cut(all, cfg), cfg) >= cfg.maxItems
    ensures Cut(all, cfg) != [] ==> Below(Cut(all, cfg)[..|Cut(all, cfg)| - 1], cfg)
  {
    if all != [] {
      CutSound(all[..|all| - 1], cfg);
    }
  }

  /** The invocation at `k` counts twice and comes when one more is due. */
  predicate Oversteps(all: seq<Invocation>, cfg: Config, k: nat)
    requires k < |all|
  {
    WeightOf(all[k], cfg) == 2 && Weight(all[..k], cfg) == cfg.maxItems - 1
  }

  /** At most one invocation is counted beyond a limit of at least 1; the limit is
      respected exactly when it is that and no answered call, counting twice,
      comes when one more is due. */
  lemma LimitRespectedExactly(all: seq<Invocation>, cfg: Config)
    requires all != []
    ensures Weight(Cut(all, cfg), cfg) <= cfg.maxItems
       <==> cfg.maxItems >= 1 && forall k :: 0 <= k < |all| ==> !Oversteps(all, cfg, k)
    ensures cfg.maxItems >= 1 ==> Weight(Cut(all, cfg), cfg) <= cfg.maxItems + 1
  {
    var cut := Cut(all, cfg);
    CutSound(all, cfg);
    var n := |cut| - 1;
    assert cut[..n] == all[..n] && cut[n] == all[n];
    forall k | 0 <= k < |all| && Oversteps(all, cfg, k) ensures Weight(cut, cfg) > cfg.maxItems {
      OverstepIsLast(all, cfg, k);
    }
    if cfg.maxItems >= 1 && Weight(cut, cfg) > cfg.maxItems {
      assert Oversteps(all, cfg, n);
    }
  }

  /** An invocation that oversteps the limit is the last one kept. */
  lemma OverstepIsLast(all: seq<Invocation>, cfg: Config, k: nat)
    requires k < |all| && Oversteps(all, cfg, k)
    ensures Weight(Cut(all, cfg), cfg) > cfg.maxItems
  {
    var upTo := all[..k];
    WeightSnoc(upTo, all[k], cfg);
    assert all == upTo + [all[k]] + all[k + 1..];
    CutAtLimit(upTo, all[k], all[k + 1..], cfg);
  }

  /** Counting calls, the limit is respected exactly when it is at least 1. */
  lemma CallLimitRespected(all: seq<Invocation>, cfg: Config)
    requires all != [] && cfg.countsCalls
    ensures Weight(Cut(all, cfg), cfg) <= cfg.maxItems <==> cfg.maxItems >= 1
  {
    LimitRespectedExactly(all, cfg);
  }

  /** A limit of 0 lets one call through; counting results as well, a limit of 1
      lets an answered call through, which counts twice. */
  lemma LimitExamples(c: Call, r: Result)
    ensures Cut([Invocation(c, None)], Config(0, true, true)) == [Invocation(c, None)]
    ensures Cut([Invocation(c, Some(r))], Config(1, false, true)) == [Invocation(c, Some(r))]
    ensures Weight([Invocation(c, None)], Config(0, true, true)) == 1
    ensures Weight([Invocation(c, Some(r))], Config(1, false, true)) == 2
  {
    WeightSnoc([], Invocation(c, None), Config(0, true, true));
    WeightSnoc([], Invocation(c, Some(r)), Config(1, false, true));
    assert [] + [Invocation(c, None)] == [Invocation(c, None)];
    assert [] + [Invocation(c, Some(r))] == [Invocation(c, Some(r))];
  }

  lemma {:induction false} CutAtLimit(front: seq<Invocation>, x: Invocation, more: seq<Invocation>, cfg: Config)
    requires Below(front, cfg)
    ensures Weight(front + [x], cfg) >= cfg.maxItems ==> Cut(front + [x] + more, cfg) == front + [x]
    decreases |more|
  {
    var upTo := front + [x];
    assert upTo[..|front|] == front;
    if more == [] {
      CutBelow(front, cfg);
      assert upTo + more == upTo;
    } else {
      var all := upTo + more;
      assert all[..|all| - 1] == upTo + more[..|more| - 1];
      CutAtLimit(front, x, more[..|more| - 1], cfg);
    }
  }

  lemma CutBelow(all: seq<Invocation>, cfg: Config)
    requires Below(all, cfg)
    ensures Cut(all, cfg) == all
  {
    CutSound(all, cfg);
  }

  lemma WeightSnoc(all: seq<Invocation>, x: Invocation, cfg: Config)
    ensures Weight(all + [x], cfg) == Weight(all, cfg) + WeightOf(x, cfg)
  {
    assert (all + [x])[..|all|] == all;
  }

  // ---------------------------------------------- what the pairing amounts to

  predicate DistinctIds(waiting: Waiting) {
    forall i, j :: 0 <= i < j < |waiting| ==> waiting[i].id != waiting[j].id
  }

  lemma {:induction false} FindPut(waiting: Waiting, c: Call, id: string)
    ensures Find(Put(waiting, c), id) == if id == c.id then Some(c) else Find(waiting, id)
  {
    if waiting != [] && waiting[|waiting| - 1].id != c.id && Find(waiting[..|waiting| - 1], c.id).Some? {
      FindPut(waiting[..|waiting| - 1], c, id);
    }
  }

  lemma {:induction false} FindMember(waiting: Waiting, id: string)
    ensures Find(waiting, id).Some? <==> exists i :: 0 <= i < |waiting| && waiting[i].id == id
    ensures Find(waiting, id).Some? ==> Find(waiting, id).value.id == id && Find(waiting, id).value in waiting
  {
    if waiting != [] {
      FindMember(waiting[..|waiting| - 1], id);
    }
  }

  lemma {:induction false} PutDistinct(waiting: Waiting, c: Call)
    requires DistinctIds(waiting)
    ensures DistinctIds(Put(waiting, c))
    ensures forall i :: 0 <= i < |Put(waiting, c)| ==> Put(waiting, c)[i].id == c.id || Find(waiting, Put(waiting, c)[i].id).Some?
  {
    if waiting != [] {
      var front, last := waiting[..|waiting| - 1], waiting[|waiting| - 1];
      PutDistinct(front, c);
      FindMember(front, last.id);
      FindMember(waiting, c.id);
      forall i | 0 <= i < |front| ensures Find(waiting, front[i].id).Some? {
        FindMember(waiting, front[i].id);
      }
    }
  }

  lemma {:induction false} DropMembers(waiting: Waiting, id: string)
    ensures forall c :: c in Drop(waiting, id) ==> c in waiting
  {
    if waiting != [] {
      var front, last := waiting[..|waiting| - 1], waiting[|waiting| - 1];
      DropMembers(front, id);
      assert waiting == front + [last];
    }
  }

  lemma {:induction false} DropDistinct(waiting: Waiting, id: string)
    requires DistinctIds(waiting)
    ensures DistinctIds(Drop(waiting, id))
  {
    if waiting != [] && waiting[|waiting| - 1].id != id {
      var front := waiting[..|waiting| - 1];
      DropDistinct(front, id);
      DropMembers(front, id);
      forall i | 0 <= i < |Drop(front, id)| ensures Drop(front, id)[i].id != waiting[|waiting| - 1].id {
        assert Drop(front, id)[i] in front;
      }
    }
  }

  lemma {:induction false} FindDrop(waiting: Waiting, id: string, other: string)
    requires DistinctIds(waiting)
    ensures Find(Drop(waiting, id), other) == if other == id then None else Find(waiting, other)
  {
    if waiting != [] {
      var front, last := waiting[..|waiting| - 1], waiting[|waiting| - 1];
      FindDrop(front, id, other);
      FindMember(front, last.id);
      assert (Drop(front, id) + [last])[..|Drop(front, id)|] == Drop(front, id);
    }
  }

  /** The calls waiting are exactly the open ones, each id once. */
  lemma {:induction false} LeftIsOpen(events: seq<Event>, id: string)
    ensures DistinctIds(Left(events)) && Find(Left(events), id) == Open(events, id)
  {
    if events != [] {
      var waiting := Left(events[..|events| - 1]);
      LeftIsOpen(events[..|events| - 1], id);
      match events[|events| - 1]
      case Called(c) =>
        PutDistinct(waiting, c);
        FindPut(waiting, c, id);
      case Answered(r) =>
        DropDistinct(waiting, r.id);
        FindDrop(waiting, r.id, id);
    }
  }

  function CallsIn(events: seq<Event>): seq<Call> {
    if events == [] then [] else
    var front, last := CallsIn(events[..|events| - 1]), events[|events| - 1];
    if last.Called? then front + [last.call] else front
  }

  /** Calls whose id was used again while they were open. */
  function Replaced(events: seq<Event>): seq<Call> {
    if events == [] then [] else
    var front, last := events[..|events| - 1], events[|events| - 1];
    if last.Called? && Open(front, last.call.id).Some?
    then Replaced(front) + [Open(front, last.call.id).value] else Replaced(front)
  }

  function Callers(all: seq<Invocation>): seq<Call> {
    if all == [] then [] else Callers(all[..|all| - 1]) + [all[|all| - 1].call]
  }

  function Lone(c: Option<Call>): multiset<Call> {
    if c.Some? then multiset{c.value} else multiset{}
  }

  lemma LastApart(waiting: Waiting)
    requires waiting != []
    ensures multiset(waiting) == multiset(waiting[..|waiting| - 1]) + multiset{waiting[|waiting| - 1]}
  {
    assert waiting == waiting[..|waiting| - 1] + [waiting[|waiting| - 1]];
  }

  lemma Appended(waiting: Waiting, c: Call)
    ensures multiset(waiting + [c]) == multiset(waiting) + multiset{c}
  {
  }

  lemma {:induction false} PutCounts(waiting: Waiting, c: Call)
    ensures multiset(Put(waiting, c)) + Lone(Find(waiting, c.id)) == multiset(waiting) + multiset{c}
  {
    if waiting != [] {
      var front, last := waiting[..|waiting| - 1], waiting[|waiting| - 1];
      LastApart(waiting);
      if last.id == c.id {
        Appended(front, c);
      } else if Find(front, c.id).Some? {
        PutCounts(front, c);
        Appended(Put(front, c), last);
        assert Put(waiting, c) == Put(front, c) + [last] && Find(waiting, c.id) == Find(front, c.id);
        assert multiset(Put(front, c)) + multiset{last} + Lone(Find(front, c.id)) == multiset(front) + multiset{c} + multiset{last};
      } else {
        Appended(waiting, c);
      }
    }
  }

  lemma {:induction false} DropCounts(waiting: Waiting, id: string)
    ensures multiset(Drop(waiting, id)) + Lone(Find(waiting, id)) == multiset(waiting)
  {
    if waiting != [] {
      LastApart(waiting);
      DropCounts(waiting[..|waiting| - 1], id);
    }
  }

  lemma CallersSnoc(all: seq<Invocation>, x: Invocation)
    ensures multiset(Callers(all + [x])) == multiset(Callers(all)) + multiset{x.call}
  {
    assert (all + [x])[..|all|] == all;
  }

  /** Called so far, and what became of those calls. */
  ghost predicate Conserved(events: seq<Event>) {
    multiset(Callers(Matched(events))) + multiset(Left(events)) + multiset(Replaced(events)) == multiset(CallsIn(events))
  }

  lemma CallAdded(front: seq<Event>, c: Call)
    ensures
      var events := front + [Called(c)];
      && Matched(events) == Matched(front) && Left(events) == Put(Left(front), c)
      && multiset(Replaced(events)) == multiset(Replaced(front)) + Lone(Open(front, c.id))
      && multiset(CallsIn(events)) == multiset(CallsIn(front)) + multiset{c}
  {
    assert (front + [Called(c)])[..|front|] == front;
  }

  lemma ResultAdded(front: seq<Event>, r: Result)
    ensures
      var events := front + [Answered(r)];
      && multiset(Callers(Matched(events))) == multiset(Callers(Matched(front))) + Lone(Open(front, r.id))
      && Left(events) == Drop(Left(front), r.id)
      && Replaced(events) == Replaced(front) && CallsIn(events) == CallsIn(front)
  {
    assert (front + [Answered(r)])[..|front|] == front;
    if Open(front, r.id).Some? {
      CallersSnoc(Matched(front), Invocation(Open(front, r.id).value, Some(r)));
    }
  }

  lemma ConservedCall(front: seq<Event>, c: Call)
    requires Conserved(front)
    ensures Conserved(front + [Called(c)])
  {
    CallAdded(front, c);
    LeftIsOpen(front, c.id);
    PutCounts(Left(front), c);
    Balance(multiset(Callers(Matched(front))), multiset(Put(Left(front), c)), multiset(Replaced(front)),
            multiset(Left(front)), Lone(Open(front, c.id)), multiset{c});
  }

  lemma ConservedResult(front: seq<Event>, r: Result)
    requires Conserved(front)
    ensures Conserved(front + [Answered(r)])
  {
    ResultAdded(front, r);
    LeftIsOpen(front, r.id);
    DropCounts(Left(front), r.id);
    Balance(multiset(Replaced(front)), multiset(Drop(Left(front), r.id)), multiset(Callers(Matched(front))),
            multiset(Left(front)), Lone(Open(front, r.id)), multiset{});
  }

  lemma Balance(a: multiset<Call>, b': multiset<Call>, c: multiset<Call>, b: multiset<Call>, o: multiset<Call>, x: multiset<Call>)
    requires b' + o == b + x
    ensures a + b' + (c + o) == a + b + c + x && (c + o) + b' + a == c + b + a + x
  {
    assert a + b' + (c + o) == a + c + (b' + o) && a + b + c + x == a + c + (b + x);
    assert (c + o) + b' + a == c + a + (b' + o) && c + b + a + x == c + a + (b + x);
  }

  /** No call is lost and none is made up: each is answered once, still waiting,
      or was replaced by a later call of its id. */
  lemma {:induction false} CallsConserved(events: seq<Event>)
    ensures multiset(Callers(Matched(events))) + multiset(Left(events)) + multiset(Replaced(events)) == multiset(CallsIn(events))
  {
    if events != [] {
      var front, last := events[..|events| - 1], events[|events| - 1];
      CallsConserved(front);
      assert events == front + [last];
      match last
      case Called(c) => ConservedCall(front, c);
      case Answered(r) => ConservedResult(front, r);
    }
  }

  /** No id is used again while a call of it is open. */
  predicate NoReuse(events: seq<Event>) {
    forall k :: 0 <= k < |events| && events[k].Called? ==> Open(events[..k], events[k].call.id).None?
  }

  lemma {:induction false} ReplacedExactly(events: seq<Event>)
    ensures Replaced(events) == [] <==> NoReuse(events)
  {
    if events != [] {
      var front := events[..|events| - 1];
      ReplacedExactly(front);
      assert forall k :: 0 <= k <= |front| ==> events[..k] == front[..k];
      assert NoReuse(events) ==> NoReuse(front);
    }
  }

  lemma {:induction false} CallersOfUnanswered(waiting: Waiting)
    ensures multiset(Callers(Unanswered(waiting))) == multiset(waiting)
  {
    if waiting != [] {
      var front, last := waiting[..|waiting| - 1], waiting[|waiting| - 1];
      CallersOfUnanswered(front);
      assert waiting == front + [last] && Unanswered(waiting) == Unanswered(front) + [Invocation(last, None)];
      CallersSnoc(Unanswered(front), Invocation(last, None));
    }
  }

  lemma {:induction false} CallersAppend(a: seq<Invocation>, b: seq<Invocation>)
    ensures multiset(Callers(a + b)) == multiset(Callers(a)) + multiset(Callers(b))
  {
    if b == [] {
      assert a + b == a;
    } else {
      var front, last := b[..|b| - 1], b[|b| - 1];
      assert a + b == (a + front) + [last] && b == front + [last];
      CallersAppend(a, front);
      CallersSnoc(a + front, last);
      CallersSnoc(front, last);
    }
  }

  /** With unanswered calls included, a log yields one invocation for every call
      exactly when no id is used again while a call of it is open. */
  lemma EachCallOnce(entries: seq<Entry>, wanted: string -> bool, cfg: Config)
    requires cfg.includeUnresolved
    ensures
      var events := Events(entries, wanted);
      multiset(Callers(OfLog(entries, wanted, cfg))) == multiset(CallsIn(events)) <==> NoReuse(events)
  {
    var events := Events(entries, wanted);
    CallsConserved(events);
    ReplacedExactly(events);
    CallersOfUnanswered(Left(events));
    CallersAppend(Matched(events), Unanswered(Left(events)));
    if Replaced(events) != [] {
      assert Replaced(events)[0] in multiset(Replaced(events));
    }
  }

  // ------------------------------------------------------------ the generator

  method PutCalls(calls: seq<Call>, wanted: string -> bool, before: Waiting, ghost events: seq<Event>) returns (waiting: Waiting)
    requires before == Left(events)
    ensures waiting == Left(events + CallsOf(calls, wanted)) && Matched(events + CallsOf(calls, wanted)) == Matched(events)
  {
    waiting := before;
    assert events + [] == events;
    for i := 0 to |calls|
      invariant waiting == Left(events + CallsOf(calls[..i], wanted))
      invariant Matched(events + CallsOf(calls[..i], wanted)) == Matched(events)
    {
      assert calls[..i + 1][..i] == calls[..i];
      if wanted(calls[i].name) {
        CalledSnoc(events, CallsOf(calls[..i], wanted), calls[i]);
        waiting := Put(waiting, calls[i]);
      }
    }
    assert calls[..|calls|] == calls;
  }

  lemma CalledSnoc(events: seq<Event>, more: seq<Event>, c: Call)
    ensures Left(events + (more + [Called(c)])) == Put(Left(events + more), c)
    ensures Matched(events + (more + [Called(c)])) == Matched(events + more)
  {
    assert events + (more + [Called(c)]) == (events + more) + [Called(c)];
    assert ((events + more) + [Called(c)])[..|events + more|] == events + more;
  }

  lemma AnsweredSnoc(events: seq<Event>, r: Result)
    ensures Left(events + [Answered(r)]) == Drop(Left(events), r.id)
    ensures
      var c := Find(Left(events), r.id);
      Matched(events + [Answered(r)]) == if c.Some? then Matched(events) + [Invocation(c.value, Some(r))] else Matched(events)
  {
    assert (events + [Answered(r)])[..|events|] == events;
    LeftIsOpen(events, r.id);
  }

  lemma {:induction false} DropAbsent(waiting: Waiting, id: string)
    requires Find(waiting, id).None?
    ensures Drop(waiting, id) == waiting
  {
    if waiting != [] {
      DropAbsent(waiting[..|waiting| - 1], id);
    }
  }

  lemma {:induction false} EventsPrefix(entries: seq<Entry>, k: nat, wanted: string -> bool)
    requires k <= |entries|
    ensures Events(entries[..k], wanted) <= Events(entries, wanted)
  {
    if k < |entries| {
      EventsPrefix(entries[..|entries| - 1], k, wanted);
      assert entries[..|entries| - 1][..k] == entries[..k];
    } else {
      assert entries[..k] == entries;
    }
  }

  lemma {:induction false} MatchedPrefix(events: seq<Event>, k: nat)
    requires k <= |events|
    ensures Matched(events[..k]) <= Matched(events)
  {
    if k < |events| {
      MatchedPrefix(events[..|events| - 1], k);
      assert events[..|events| - 1][..k] == events[..k];
    } else {
      assert events[..k] == events;
    }
  }

  lemma {:induction false} LogsPrefix(logs: seq<seq<Entry>>, f: nat, wanted: string -> bool, cfg: Config)
    requires f <= |logs|
    ensures OfLogs(logs[..f], wanted, cfg) <= OfLogs(logs, wanted, cfg)
  {
    if f < |logs| {
      LogsPrefix(logs[..|logs| - 1], f, wanted, cfg);
      assert logs[..|logs| - 1][..f] == logs[..f];
    } else {
      assert logs[..f] == logs;
    }
  }

  /** What is emitted so far begins what there is to emit. */
  ghost predicate Begins(logs: seq<seq<Entry>>, wanted: string -> bool, cfg: Config, f: nat, part: seq<Invocation>) {
    f < |logs| && part <= OfLog(logs[f], wanted, cfg)
  }

  lemma StopHere(logs: seq<seq<Entry>>, wanted: string -> bool, cfg: Config, f: nat, before: seq<Invocation>,
                 part: seq<Invocation>, x: Invocation)
    requires Begins(logs, wanted, cfg, f, part + [x]) && before == OfLogs(logs[..f], wanted, cfg)
    requires Below(before + part, cfg) && Weight(before + part + [x], cfg) >= cfg.maxItems
    ensures Cut(OfLogs(logs, wanted, cfg), cfg) == before + part + [x]
  {
    var all, upTo := OfLogs(logs, wanted, cfg), before + part + [x];
    assert logs[..f + 1][..f] == logs[..f];
    LogsPrefix(logs, f + 1, wanted, cfg);
    PrefixOfRest(before, part, x, OfLog(logs[f], wanted, cfg), all);
    CutAtLimit(before + part, x, all[|upTo|..], cfg);
  }

  lemma PrefixOfRest(before: seq<Invocation>, part: seq<Invocation>, x: Invocation, log: seq<Invocation>, all: seq<Invocation>)
    requires part + [x] <= log && before + log <= all
    ensures before + part + [x] <= all
    ensures all == before + part + [x] + all[|before + part + [x]|..]
  {
    assert before + part + [x] == before + (part + [x]);
    assert before + (part + [x]) <= before + log;
  }

  /** A result, if wanted, answers the call waiting for it. */
  method TakeResult(r: Result, wanted: string -> bool, before: Waiting, ghost events: seq<Event>)
    returns (waiting: Waiting, answered: Option<Invocation>)
    requires before == Left(events)
    ensures
      var more := events + EventsOf(ToolResult(r), wanted);
      waiting == Left(more) && Matched(more) == if answered.Some? then Matched(events) + [answered.value] else Matched(events)
  {
    waiting, answered := before, None;
    assert events + [] == events;
    if !wanted(r.name) {
      return;
    }
    AnsweredSnoc(events, r);
    var call := Find(before, r.id);
    if call.None? {
      DropAbsent(before, r.id);
      return;
    }
    waiting := Drop(before, r.id);
    answered := Some(Invocation(call.value, Some(r)));
  }

  /** One log: `out` goes on to hold its invocations, unless the limit is
      reached on the way. */
  method TakeLog(logs: seq<seq<Entry>>, f: nat, wanted: string -> bool, cfg: Config, before: seq<Invocation>, seen0: nat)
    returns (out: seq<Invocation>, seen: nat, stopped: bool)
    requires f < |logs| && before == OfLogs(logs[..f], wanted, cfg)
    requires Below(before, cfg) && seen0 == Weight(before, cfg)
    ensures seen == Weight(out, cfg)
    ensures stopped ==> out == Cut(OfLogs(logs, wanted, cfg), cfg)
    ensures !stopped ==> out == before + OfLog(logs[f], wanted, cfg) && Below(out, cfg)
  {
    var waiting: Waiting := [];
    out, seen, stopped := before, seen0, false;
    StartLog(logs, f, wanted, cfg, before);
    for e := 0 to |logs[f]|
      invariant Within(logs, f, wanted, cfg, before, e, waiting, out)
      invariant seen == Weight(out, cfg)
    {
      waiting, out, seen, stopped := TakeEntry(logs, f, wanted, cfg, before, e, waiting, out, seen);
      if stopped {
        return;
      }
    }
    assert logs[f][..|logs[f]|] == logs[f];
    if !cfg.includeUnresolved {
      assert Matched(Events(logs[f], wanted)) + [] == Matched(Events(logs[f], wanted));
      return;
    }
    out, seen, stopped := TakeUnanswered(logs, f, wanted, cfg, before, waiting, out, seen);
  }

  /** The first `e` entries of a log are done. */
  ghost predicate Within(logs: seq<seq<Entry>>, f: nat, wanted: string -> bool, cfg: Config, before: seq<Invocation>,
                         e: nat, waiting: Waiting, out: seq<Invocation>) {
    && f < |logs| && e <= |logs[f]| && before == OfLogs(logs[..f], wanted, cfg)
    && waiting == Left(Events(logs[f][..e], wanted)) && out == before + Matched(Events(logs[f][..e], wanted))
    && Below(out, cfg)
  }

  lemma StartLog(logs: seq<seq<Entry>>, f: nat, wanted: string -> bool, cfg: Config, before: seq<Invocation>)
    requires f < |logs| && before == OfLogs(logs[..f], wanted, cfg) && Below(before, cfg)
    ensures Within(logs, f, wanted, cfg, before, 0, [], before)
  {
    assert before + [] == before;
  }

  method TakeEntry(logs: seq<seq<Entry>>, f: nat, wanted: string -> bool, cfg: Config, ghost before: seq<Invocation>,
                   e: nat, waiting0: Waiting, out0: seq<Invocation>, seen0: nat)
    returns (waiting: Waiting, out: seq<Invocation>, seen: nat, stopped: bool)
    requires Within(logs, f, wanted, cfg, before, e, waiting0, out0) && e < |logs[f]| && seen0 == Weight(out0, cfg)
    ensures seen == Weight(out, cfg)
    ensures stopped ==> out == Cut(OfLogs(logs, wanted, cfg), cfg)
    ensures !stopped ==> Within(logs, f, wanted, cfg, before, e + 1, waiting, out)
  {
    waiting, out, seen, stopped := waiting0, out0, seen0, false;
    ghost var events := Events(logs[f][..e], wanted);
    ghost var part := Matched(events);
    LogStep(logs[f], e, wanted, cfg);
    match logs[f][e]
    case Assistant(calls) =>
      waiting := PutCalls(calls, wanted, waiting, events);
    case ToolResult(r) =>
      var answered: Option<Invocation>;
      waiting, answered := TakeResult(r, wanted, waiting, events);
      if answered.Some? {
        seen, stopped := EmitNext(logs, f, wanted, cfg, before, part, answered.value, seen);
        OneMore(before, part, answered.value);
        out := out + [answered.value];
      }
    case Other =>
      assert events + [] == events;
  }

  lemma OneMore(before: seq<Invocation>, part: seq<Invocation>, x: Invocation)
    ensures before + (part + [x]) == before + part + [x]
  {
  }

  lemma LogStep(log: seq<Entry>, e: nat, wanted: string -> bool, cfg: Config)
    requires e < |log|
    ensures Events(log[..e + 1], wanted) == Events(log[..e], wanted) + EventsOf(log[e], wanted)
    ensures Matched(Events(log[..e + 1], wanted)) <= OfLog(log, wanted, cfg)
  {
    assert log[..e + 1][..e] == log[..e];
    EventsPrefix(log, e + 1, wanted);
    var events, upTo := Events(log, wanted), Events(log[..e + 1], wanted);
    assert events[..|upTo|] == upTo;
    MatchedPrefix(events, |upTo|);
  }

  /** Counting one more invocation and looking at the limit. */
  method EmitNext(ghost logs: seq<seq<Entry>>, ghost f: nat, ghost wanted: string -> bool, cfg: Config,
                  ghost before: seq<Invocation>, ghost part: seq<Invocation>, x: Invocation, seen0: nat)
    returns (seen: nat, stopped: bool)
    requires Begins(logs, wanted, cfg, f, part + [x]) && before == OfLogs(logs[..f], wanted, cfg)
    requires Below(before + part, cfg) && seen0 == Weight(before + part, cfg)
    ensures seen == Weight(before + part + [x], cfg)
    ensures stopped ==> before + part + [x] == Cut(OfLogs(logs, wanted, cfg), cfg)
    ensures !stopped ==> Below(before + part + [x], cfg)
  {
    WeightSnoc(before + part, x, cfg);
    seen := seen0 + WeightOf(x, cfg);
    stopped := seen >= cfg.maxItems;
    if stopped {
      StopHere(logs, wanted, cfg, f, before, part, x);
    }
  }

  /** The calls of a log that were never answered. */
  method TakeUnanswered(logs: seq<seq<Entry>>, f: nat, wanted: string -> bool, cfg: Config, ghost before: seq<Invocation>,
                        waiting: Waiting, out0: seq<Invocation>, seen0: nat)
    returns (out: seq<Invocation>, seen: nat, stopped: bool)
    requires f < |logs| && before == OfLogs(logs[..f], wanted, cfg) && cfg.includeUnresolved
    requires waiting == Left(Events(logs[f], wanted)) && out0 == before + Matched(Events(logs[f], wanted))
    requires Below(out0, cfg) && seen0 == Weight(out0, cfg)
    ensures seen == Weight(out, cfg)
    ensures stopped ==> out == Cut(OfLogs(logs, wanted, cfg), cfg)
    ensures !stopped ==> out == before + OfLog(logs[f], wanted, cfg) && Below(out, cfg)
  {
    out, seen, stopped := out0, seen0, false;
    ghost var matched := Matched(Events(logs[f], wanted));
    assert matched + Unanswered(waiting)[..0] == matched;
    for i := 0 to |waiting|
      invariant out == before + (matched + Unanswered(waiting)[..i]) && Below(out, cfg) && seen == Weight(out, cfg)
    {
      var x := Invocation(waiting[i], None);
      UnansweredStep(matched, Unanswered(waiting), i, before);
      seen, stopped := EmitNext(logs, f, wanted, cfg, before, matched + Unanswered(waiting)[..i], x, seen);
      out := out + [x];
      if stopped {
        return;
      }
    }
    assert Unanswered(waiting)[..|waiting|] == Unanswered(waiting);
  }

  lemma UnansweredStep(matched: seq<Invocation>, unanswered: seq<Invocation>, i: nat, before: seq<Invocation>)
    requires i < |unanswered|
    ensures matched + unanswered[..i] + [unanswered[i]] == matched + unanswered[..i + 1] <= matched + unanswered
    ensures before + (matched + unanswered[..i + 1]) == before + (matched + unanswered[..i]) + [unanswered[i]]
  {
  }

  /** All logs in turn: everything there is to pair, cut at the limit. */
  method IterToolInvocations(logs: seq<seq<Entry>>, wanted: string -> bool, cfg: Config) returns (out: seq<Invocation>)
    ensures out == Cut(OfLogs(logs, wanted, cfg), cfg)
  {
    out := [];
    var seen := 0;
    for f := 0 to |logs|
      invariant out == OfLogs(logs[..f], wanted, cfg) && Below(out, cfg) && seen == Weight(out, cfg)
    {
      var stopped;
      assert logs[..f + 1][..f] == logs[..f];
      out, seen, stopped := TakeLog(logs, f, wanted, cfg, out, seen);
      if stopped {
        return;
      }
    }
    assert logs[..|logs|] == logs;
    CutBelow(out, cfg);
  }
}
