/** Which calls and results of a log are paired, told from the log itself. */
module ToolPairs {
  import opened Options
  import opened ToolLog

  function IdOf(e: Event): string {
    match e
    case Called(c) => c.id
    case Answered(r) => r.id
  }

  // ---------- The wanted calls and results ----------

  predicate Wanted(e: Event, wanted: string -> bool) {
    match e
    case Called(c) => wanted(c.name)
    case Answered(r) => wanted(r.name)
  }

  /** The entry is the message of the call, or the result. */
  predicate Records(entry: Entry, e: Event) {
    match e
    case Called(c) => entry.Assistant? && c in entry.calls
    case Answered(r) => entry == ToolResult(r)
  }

  lemma {:induction false} CallsAre(calls: seq<Call>, wanted: string -> bool, e: Event)
    ensures e in CallsOf(calls, wanted) <==> e.Called? && e.call in calls && wanted(e.call.name)
  {
    if calls != [] {
      CallsAre(calls[..|calls| - 1], wanted, e);
      assert calls == calls[..|calls| - 1] + [calls[|calls| - 1]];
    }
  }

  lemma EntryRecords(entry: Entry, wanted: string -> bool, e: Event)
    ensures e in EventsOf(entry, wanted) <==> Records(entry, e) && Wanted(e, wanted)
  {
    if entry.Assistant? {
      CallsAre(entry.calls, wanted, e);
    }
  }

  /** What is paired up is what the log records of the wanted tools. */
  lemma {:induction false} EventsAre(entries: seq<Entry>, wanted: string -> bool, e: Event)
    ensures e in Events(entries, wanted) <==> Wanted(e, wanted) && exists entry :: entry in entries && Records(entry, e)
  {
    if entries != [] {
      var front, last := entries[..|entries| - 1], entries[|entries| - 1];
      EventsAre(front, wanted, e);
      EntryRecords(last, wanted, e);
      assert entries == front + [last];
    }
  }

  /** How often the messages of a log make a call. */
  function Made(entries: seq<Entry>, c: Call): nat {
    if entries == [] then 0
    else Made(entries[..|entries| - 1], c)
         + if entries[|entries| - 1].Assistant? then multiset(entries[|entries| - 1].calls)[c] else 0
  }

  lemma {:induction false} CallsInAppend(a: seq<Event>, b: seq<Event>)
    ensures CallsIn(a + b) == CallsIn(a) + CallsIn(b)
  {
    if b == [] {
      assert a + b == a;
    } else {
      CallsInAppend(a, b[..|b| - 1]);
      assert (a + b)[..|a + b| - 1] == a + b[..|b| - 1];
    }
  }

  lemma {:induction false} CountCalls(calls: seq<Call>, wanted: string -> bool, c: Call)
    ensures multiset(CallsIn(CallsOf(calls, wanted)))[c] == if wanted(c.name) then multiset(calls)[c] else 0
  {
    if calls != [] {
      var front, last := calls[..|calls| - 1], calls[|calls| - 1];
      CountCalls(front, wanted, c);
      assert calls == front + [last];
      var events := CallsOf(front, wanted);
      assert (events + [Called(last)])[..|events|] == events;
    }
  }

  /** Every call of a wanted tool is taken as often as it is made. */
  lemma {:induction false} CallsTaken(entries: seq<Entry>, wanted: string -> bool, c: Call)
    ensures multiset(CallsIn(Events(entries, wanted)))[c] == if wanted(c.name) then Made(entries, c) else 0
  {
    if entries != [] {
      var front, last := entries[..|entries| - 1], entries[|entries| - 1];
      CallsTaken(front, wanted, c);
      CallsInAppend(Events(front, wanted), EventsOf(last, wanted));
      match last
      case Assistant(calls) => CountCalls(calls, wanted, c);
      case ToolResult(r) => OneAnswer(r);
      case Other =>
    }
  }

  lemma OneAnswer(r: Result)
    ensures CallsIn([Answered(r)]) == []
  {
  }

  /** With unanswered calls included and no id used again while open, a log
      yields each call of a wanted tool as often as the log makes it, and no
      other call. */
  lemma YieldedAsMade(entries: seq<Entry>, wanted: string -> bool, cfg: Config, c: Call)
    requires cfg.includeUnresolved && NoReuse(Events(entries, wanted))
    ensures multiset(Callers(OfLog(entries, wanted, cfg)))[c] == if wanted(c.name) then Made(entries, c) else 0
  {
    EachCallOnce(entries, wanted, cfg);
    CallsTaken(entries, wanted, c);
  }

  // ---------- The pairs ----------

  /** The call at `a` with no event of its id after it and before `n`. */
  ghost predicate OpenAt(events: seq<Event>, a: nat, n: nat, c: Call) {
    a < n <= |events| && events[a] == Called(c) && forall k :: a < k < n ==> IdOf(events[k]) != c.id
  }

  lemma {:induction false} OpenExactly(events: seq<Event>, id: string, c: Call)
    ensures Open(events, id) == Some(c) <==> c.id == id && exists a: nat :: OpenAt(events, a, |events|, c)
  {
    if events != [] {
      var n := |events| - 1;
      var front := events[..n];
      OpenExactly(front, id, c);
      if IdOf(events[n]) != id {
        forall a: nat ensures c.id == id ==> (OpenAt(front, a, |front|, c) <==> OpenAt(events, a, |events|, c)) {
        }
      } else if c.id == id {
        forall a: nat | OpenAt(events, a, |events|, c) ensures a == n {
        }
        if events[n] == Called(c) {
          assert OpenAt(events, n, |events|, c);
        }
      }
    }
  }

  /** The result at `b` answers the call at `a`: the last event of its id before. */
  ghost predicate PairAt(events: seq<Event>, a: nat, b: nat, c: Call, r: Result) {
    b < |events| && events[b] == Answered(r) && c.id == r.id && OpenAt(events, a, b, c)
  }

  /** A call and a result are paired exactly when the result is the first event
      of the id after the call. */
  lemma {:induction false} PairedExactly(events: seq<Event>, c: Call, r: Result)
    ensures Invocation(c, Some(r)) in Matched(events) <==> exists a: nat, b: nat :: PairAt(events, a, b, c, r)
  {
    if events != [] {
      var n := |events| - 1;
      var front, last := events[..n], events[n];
      PairedExactly(front, c, r);
      OpenExactly(front, r.id, c);
      forall a: nat, b: nat | b < n ensures PairAt(front, a, b, c, r) <==> PairAt(events, a, b, c, r) {
      }
      forall a: nat ensures PairAt(events, a, n, c, r) <==> last == Answered(r) && c.id == r.id && OpenAt(front, a, n, c) {
      }
    }
  }

  /** A log yields the pairs of a wanted call and the next event of its id ... */
  lemma PairsYielded(entries: seq<Entry>, wanted: string -> bool, cfg: Config, events: seq<Event>, c: Call, r: Result)
    requires events == Events(entries, wanted)
    ensures Invocation(c, Some(r)) in OfLog(entries, wanted, cfg) <==> exists a: nat, b: nat :: PairAt(events, a, b, c, r)
  {
    PairedExactly(events, c, r);
    AllUnanswered(Left(events), Invocation(c, Some(r)));
  }

  /** ... and if asked for the wanted calls that are the last event of their id. */
  lemma OpenYielded(entries: seq<Entry>, wanted: string -> bool, cfg: Config, events: seq<Event>, c: Call)
    requires events == Events(entries, wanted)
    ensures Invocation(c, None) in OfLog(entries, wanted, cfg)
       <==> cfg.includeUnresolved && exists a: nat :: OpenAt(events, a, |events|, c)
  {
    AllAnswered(events, Invocation(c, None));
    OpenExactly(events, c.id, c);
    LeftIsOpen(events, c.id);
    FoundExactly(Left(events), c);
    UnansweredAre(Left(events), c);
  }

  lemma FoundExactly(waiting: Waiting, c: Call)
    requires DistinctIds(waiting)
    ensures c in waiting <==> Find(waiting, c.id) == Some(c)
  {
    FindMember(waiting, c.id);
    if c in waiting {
      var i :| 0 <= i < |waiting| && waiting[i] == c;
      var j :| 0 <= j < |waiting| && waiting[j] == Find(waiting, c.id).value;
    }
  }

  lemma UnansweredAre(waiting: Waiting, c: Call)
    ensures Invocation(c, None) in Unanswered(waiting) <==> c in waiting
  {
    if c in waiting {
      var k :| 0 <= k < |waiting| && waiting[k] == c;
      assert Unanswered(waiting)[k] == Invocation(c, None);
    }
  }

  lemma AllUnanswered(waiting: Waiting, i: Invocation)
    ensures i in Unanswered(waiting) ==> i.result.None?
  {
  }

  lemma {:induction false} AllAnswered(events: seq<Event>, i: Invocation)
    ensures i in Matched(events) ==> i.result.Some?
  {
    if events != [] {
      AllAnswered(events[..|events| - 1], i);
    }
  }
}
