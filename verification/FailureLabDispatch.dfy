/** Dispatching a request sequence over a runtime session, and what an exact transcript proves. */
module FailureLabDispatch {
  import opened Foundations
  import opened RuntimeSessions

  const RUNTIME_ROUTE_NOT_FOUND := "RUNTIME_ROUTE_NOT_FOUND"

  datatype Dispatch = Returned(results: seq<RequestResult>, transcript: Option<Transcript>, failure: Option<string>,
                               closeFailed: bool)
                    | Raised

  /** The attempts of a session with `from` requests behind it, up to and including the first that is not
      answered. */
  function Attempts(respond: (nat, Request) -> Attempt, from: nat, requests: seq<Request>): (r: seq<Attempt>)
    ensures |r| <= |requests|
    ensures forall k :: 0 <= k < |r| ==> r[k] == respond(from + k, requests[k])
    ensures forall k :: 0 <= k < |r| - 1 ==> r[k].Answered?
    ensures |r| == |requests| || (r != [] && !r[|r| - 1].Answered?)
    decreases |requests|
  {
    if requests == [] then []
    else
      var first := respond(from, requests[0]);
      if !first.Answered? then [first] else [first] + Attempts(respond, from + 1, requests[1..])
  }

  function Answers(attempts: seq<Attempt>): seq<RequestResult> {
    if attempts == [] || !attempts[0].Answered? then [] else [attempts[0].result] + Answers(attempts[1..])
  }

  /** What a dispatch does: nothing is sent without an ingress. */
  function Tried(s: RuntimeSession, from: nat, ingress: Option<Binding>, requests: seq<Request>): seq<Attempt> {
    if ingress.None? then [] else Attempts(s.respond, from, requests)
  }

  predicate EndsWith(attempts: seq<Attempt>, a: Attempt) {
    attempts != [] && attempts[|attempts| - 1] == a
  }

  /** Sends until one request is not answered. */
  method SendAll(session: RuntimeSession, ingress: Option<Binding>, requests: seq<Request>)
    returns (results: seq<RequestResult>, failure: Option<string>, raised: bool)
    modifies session`sent
    ensures var tried := Tried(session, |old(session.sent)|, ingress, requests);
            && session.sent == old(session.sent) + requests[..|tried|]
            && results == Answers(tried)
            && (raised <==> EndsWith(tried, Escaped))
            && (failure.None? && !raised <==> |results| == |requests|)
            && (ingress.None? && failure.Some? ==> failure.value == RUNTIME_ROUTE_NOT_FOUND)
            && (ingress.Some? && failure.Some? ==> EndsWith(tried, RuntimeFailed(failure.value)))
  {
    results, failure, raised := [], None, false;
    if ingress.None? {
      if requests != [] {
        failure := Some(RUNTIME_ROUTE_NOT_FOUND);
      }
      return;
    }
    hide Answers, Attempts;
    ghost var from := |session.sent|;
    for k := 0 to |requests|
      invariant |results| == k && session.sent == old(session.sent) + requests[..k]
      invariant failure.None? && !raised
      invariant AnsweredSoFar(session.respond, from, requests, results)
    {
      var attempt := session.Send(ingress.value, requests[k]);
      assert session.sent == old(session.sent) + requests[..k + 1];
      match attempt {
        case Answered(result) =>
          results := results + [result];
        case RuntimeFailed(reason) =>
          Stopped(session.respond, from, requests, results);
          return results, Some(reason), false;
        case Escaped =>
          Stopped(session.respond, from, requests, results);
          return results, None, true;
      }
    }
    Stopped(session.respond, from, requests, results);
  }

  ghost predicate AnsweredSoFar(respond: (nat, Request) -> Attempt, from: nat, requests: seq<Request>,
                                results: seq<RequestResult>)
  {
    |results| <= |requests|
    && forall k :: 0 <= k < |results| ==> respond(from + k, requests[k]) == Answered(results[k])
  }

  /** Once a request is not answered, or none is left, the answers so far are all there will be. */
  lemma {:induction false} Stopped(respond: (nat, Request) -> Attempt, from: nat, requests: seq<Request>,
                                   results: seq<RequestResult>)
    requires AnsweredSoFar(respond, from, requests, results)
    requires |results| < |requests| ==> !respond(from + |results|, requests[|results|]).Answered?
    ensures var tried := Attempts(respond, from, requests);
            && Answers(tried) == results
            && |tried| == (if |results| < |requests| then |results| + 1 else |results|)
            && (|results| < |requests| ==> tried[|results|] == respond(from + |results|, requests[|results|]))
            && (|results| == |requests| && tried != [] ==> tried[|tried| - 1].Answered?)
    decreases |requests|
  {
    if results != [] {
      assert AnsweredSoFar(respond, from + 1, requests[1..], results[1..]) by {
        forall k | 0 <= k < |results| - 1
          ensures respond(from + 1 + k, requests[1..][k]) == Answered(results[1..][k])
        {
          assert respond(from + (k + 1), requests[k + 1]) == Answered(results[k + 1]);
        }
      }
      assert respond(from + 0, requests[0]) == Answered(results[0]);
      Stopped(respond, from + 1, requests[1..], results[1..]);
      assert Attempts(respond, from, requests)[1..] == Attempts(respond, from + 1, requests[1..]);
    }
  }

  /** Requests go out in order until one is not answered; the session is closed exactly once on every path,
      raising ones included; and a dispatch reports no failure exactly when every request was answered. */
  method DispatchManagedSequence(session: RuntimeSession, ingress: Option<Binding>, requests: seq<Request>)
    returns (d: Dispatch)
    modifies session`sent, session`closes
    ensures session.closes == old(session.closes) + 1
    ensures var tried := Tried(session, |old(session.sent)|, ingress, requests);
            && session.sent == old(session.sent) + requests[..|tried|]
            && (d.Raised? <==> EndsWith(tried, Escaped) || session.closing.CloseEscaped?)
            && (d.Returned? ==>
                  && d.results == Answers(tried)
                  && (d.failure.None? <==> |d.results| == |requests|)
                  && (ingress.None? && d.failure.Some? ==> d.failure.value == RUNTIME_ROUTE_NOT_FOUND)
                  && (ingress.Some? && d.failure.Some? ==> EndsWith(tried, RuntimeFailed(d.failure.value)))
                  && (d.closeFailed <==> session.closing.CloseRefused?)
                  && (d.transcript == if session.closing.Sealed? then Some(session.closing.transcript) else None))
  {
    var results, failure, raised := SendAll(session, ingress, requests);
    var closing := session.Close();
    if raised || closing.CloseEscaped? {
      return Raised;
    }
    d := Returned(results, if closing.Sealed? then Some(closing.transcript) else None, failure, closing.CloseRefused?);
  }

  /** Answered requests are a prefix of the requests, in order: the k-th result answers the k-th request. */
  lemma {:induction false} ResultsAnswerAPrefix(respond: (nat, Request) -> Attempt, from: nat, requests: seq<Request>)
    ensures var results := Answers(Attempts(respond, from, requests));
            && |results| <= |requests|
            && (forall k :: 0 <= k < |results| ==> respond(from + k, requests[k]) == Answered(results[k]))
            && (|results| < |requests| ==> !respond(from + |results|, requests[|results|]).Answered?)
  {
    AnswersOf(Attempts(respond, from, requests));
  }

  lemma {:induction false} AnswersOf(attempts: seq<Attempt>)
    ensures |Answers(attempts)| <= |attempts|
    ensures forall k :: 0 <= k < |Answers(attempts)| ==> attempts[k] == Answered(Answers(attempts)[k])
    ensures |Answers(attempts)| < |attempts| ==> !attempts[|Answers(attempts)|].Answered?
  {
    if attempts != [] && attempts[0].Answered? {
      AnswersOf(attempts[1..]);
    }
  }

  // ------------------------------------------------------------ transcript authority

  function IdsOf(results: seq<RequestResult>): (r: seq<string>)
    ensures |r| == |results| && forall k :: 0 <= k < |r| ==> r[k] == results[k].id
  {
    seq(|results|, k requires 0 <= k < |results| => results[k].id)
  }

  function Received(events: seq<Event>): seq<string> {
    if events == [] then []
    else (if events[0].kind == RequestReceived then [events[0].request] else []) + Received(events[1..])
  }

  /** They are the requests of the events that report one received, in order. */
  lemma {:induction false} ReceivedExact(events: seq<Event>)
    ensures var reports := Filter((e: Event) => e.kind == RequestReceived, events);
            && |Received(events)| == |reports|
            && forall k :: 0 <= k < |reports| ==> Received(events)[k] == reports[k].request
  {
    if events != [] {
      ReceivedExact(events[1..]);
    }
  }

  function Requests(events: seq<Event>): set<string> {
    set e | e in events :: e.request
  }

  predicate SequenceAuthorityIsExact(t: Transcript, results: seq<RequestResult>) {
    var expected := IdsOf(results);
    && |Elements(expected)| == |expected|
    && results != []
    && Requests(t.events) == Elements(expected)
    && Received(t.events) == expected
    && (forall r :: r in results ==> r.binding == results[0].binding)
    && (forall e :: e in t.events && e.request in expected ==>
          e.ingress == results[0].binding.ingress && e.route == results[0].binding.route)
  }

  function EventsOf(events: seq<Event>, id: string): seq<Event> {
    Filter((e: Event) => e.request == id, events)
  }

  function Attributed(events: seq<Event>, ids: seq<string>): seq<Event> {
    if ids == [] then [] else Attributed(events, ids[..|ids| - 1]) + EventsOf(events, ids[|ids| - 1])
  }

  lemma {:induction false} EventsOfCount(events: seq<Event>, id: string, e: Event)
    ensures multiset(EventsOf(events, id))[e] == if e.request == id then multiset(events)[e] else 0
  {
    if events != [] {
      assert events == [events[0]] + events[1..];
      EventsOfCount(events[1..], id, e);
    }
  }

  lemma {:induction false} AttributedCount(events: seq<Event>, ids: seq<string>, e: Event)
    requires NoDuplicates(ids)
    ensures multiset(Attributed(events, ids))[e] == if e.request in ids then multiset(events)[e] else 0
  {
    if ids != [] {
      var n := |ids| - 1;
      assert ids == ids[..n] + [ids[n]];
      AttributedCount(events, ids[..n], e);
      EventsOfCount(events, ids[n], e);
    }
  }

  lemma {:induction false} ReceivedAppend(a: seq<Event>, b: seq<Event>)
    ensures Received(a + b) == Received(a) + Received(b)
  {
    if a == [] {
      assert a + b == b;
    } else {
      assert (a + b)[1..] == a[1..] + b;
      ReceivedAppend(a[1..], b);
    }
  }

  function Occurrences(ids: seq<string>, id: string): seq<string> {
    Filter((r: string) => r == id, ids)
  }

  lemma {:induction false} ReceivedOfOne(events: seq<Event>, id: string)
    ensures Received(EventsOf(events, id)) == Occurrences(Received(events), id)
  {
    if events != [] {
      var e, rest := events[0], events[1..];
      ReceivedOfOne(rest, id);
      var mine := if e.request == id then [e] else [];
      assert EventsOf(events, id) == mine + EventsOf(rest, id);
      ReceivedAppend(mine, EventsOf(rest, id));
      assert Received([e]) == if e.kind == RequestReceived then [e.request] else [];
      FilterAppend((r: string) => r == id, Received([e]), Received(rest));
      assert Received(mine) == Occurrences(Received([e]), id);
    }
  }

  lemma {:induction false} OnceInDistinct(ids: seq<string>, id: string)
    requires NoDuplicates(ids) && id in ids
    ensures Occurrences(ids, id) == [id]
  {
    var keep := (r: string) => r == id;
    if ids[0] == id {
      FilterEmptyIff(keep, ids[1..]);
    } else {
      OnceInDistinct(ids[1..], id);
    }
  }

  /** An exact transcript splits by request: its events, grouped by the dispatched requests, are all its
      events with none lost and none counted twice; each request was received exactly once, in dispatch
      order; and every event lies on the one ingress and route dispatched to. */
  lemma ExactTranscriptSplits(t: Transcript, results: seq<RequestResult>)
    requires SequenceAuthorityIsExact(t, results)
    ensures NoDuplicates(IdsOf(results)) && results != []
    ensures multiset(Attributed(t.events, IdsOf(results))) == multiset(t.events)
    ensures Received(t.events) == IdsOf(results)
    ensures forall id :: id in IdsOf(results) ==> Received(EventsOf(t.events, id)) == [id]
    ensures forall e :: e in t.events ==>
              e.request in IdsOf(results) && e.ingress == results[0].binding.ingress
              && e.route == results[0].binding.route
  {
    var ids := IdsOf(results);
    CountedElements(ids);
    forall e | e in t.events
      ensures e.request in ids
    {
      assert e.request in Requests(t.events);
    }
    forall e
      ensures multiset(Attributed(t.events, ids))[e] == multiset(t.events)[e]
    {
      AttributedCount(t.events, ids, e);
      assert e in multiset(t.events) <==> e in t.events;
    }
    forall id | id in ids
      ensures Received(EventsOf(t.events, id)) == [id]
    {
      ReceivedOfOne(t.events, id);
      OnceInDistinct(ids, id);
    }
  }

  lemma {:induction false} ReceivedAreEvents(events: seq<Event>, id: string)
    requires id in Received(events)
    ensures exists e :: e in events && e.request == id
  {
    if events[0].kind == RequestReceived && events[0].request == id {
      assert events[0] in events;
    } else {
      ReceivedAreEvents(events[1..], id);
    }
  }

  /** Conversely these facts make a transcript exact, so the test accepts precisely such transcripts. */
  lemma ExactIffAttributed(t: Transcript, results: seq<RequestResult>)
    ensures SequenceAuthorityIsExact(t, results)
       <==> && results != [] && NoDuplicates(IdsOf(results)) && Received(t.events) == IdsOf(results)
            && (forall r :: r in results ==> r.binding == results[0].binding)
            && (forall e :: e in t.events ==>
                  e.request in IdsOf(results) && e.ingress == results[0].binding.ingress
                  && e.route == results[0].binding.route)
  {
    var ids := IdsOf(results);
    CountedElements(ids);
    if SequenceAuthorityIsExact(t, results) {
      ExactTranscriptSplits(t, results);
    } else if results != [] && Received(t.events) == ids && forall e :: e in t.events ==> e.request in ids {
      forall id | id in ids
        ensures id in Requests(t.events)
      {
        ReceivedAreEvents(t.events, id);
      }
      assert Requests(t.events) == Elements(ids);
    }
  }
}
