/** Executing one normal-capture instance: every gate before the session, and the one close on every path
    after it. */
module Sg01Execution {
  import opened Foundations
  import opened ApplicabilityContracts
  import opened RuntimeSessions

  datatype RuntimeConfig = StaticRuntime | ManagedRuntime(settings: string) | OwnRuntime(settings: string)

  datatype InstanceView = InstanceView(id: string, state: State, control: Option<string>)

  /** The applicability found just before the execution. */
  datatype Preflight = Preflight(fingerprint: string, instance: Option<InstanceView>)

  /** A freshly assessed runtime: the configuration it was opened with, the applicability found again, the
      ingress to address if the capability suffices, and the transcripts that match its artifact. */
  datatype Runtime = Runtime(config: RuntimeConfig, again: Preflight, session: Option<RuntimeSession>,
                             target: Option<Binding>, matching: Transcript -> bool)

  /** Opening is refused with an OSError or a ValueError, or raises something else. */
  datatype Opening = OpenRefused | OpenEscaped | Opened(runtime: Runtime)

  /** The fingerprint of a configuration. */
  type Stamp = RuntimeConfig -> string

  /** A session is of the kind its configuration asks for. */
  ghost predicate SessionFitsConfig(r: Runtime) {
    r.session.Some? ==>
      if r.session.value.managed then r.config.ManagedRuntime? else r.config.OwnRuntime?
  }

  datatype Why =
    | STALE_APPLICABILITY_AUTHORITY | AUTHORITY_MISMATCH | NOT_APPLICABLE_YET(state: State) | RUNTIME_MODE_UNSUPPORTED
    | WEBHOOK_SECRET_UNAVAILABLE | RUNTIME_SESSION_UNAVAILABLE | TRANSCRIPT_UNTRUSTWORTHY
    | RUNTIME_CAPABILITY_INSUFFICIENT | REQUEST_EXECUTION_FAILED

  datatype Outcome = Unresolved(why: Why) | Evaluated(request: RequestResult, transcript: Transcript) | Raised

  /** Everything that is decided before a session is opened; None means a session is opened. */
  function Early(before: Preflight, expected: string, config: RuntimeConfig, secret: string): Option<Why> {
    if before.fingerprint != expected then Some(STALE_APPLICABILITY_AUTHORITY)
    else if before.instance.None? then Some(AUTHORITY_MISMATCH)
    else if before.instance.value.state != APPLICABLE then Some(NOT_APPLICABLE_YET(before.instance.value.state))
    else if before.instance.value.control.None? then Some(AUTHORITY_MISMATCH)
    else if !config.ManagedRuntime? then Some(RUNTIME_MODE_UNSUPPORTED)
    else if secret == "" then Some(WEBHOOK_SECRET_UNAVAILABLE)
    else None
  }

  function SessionsOf(o: Opening): set<RuntimeSession> {
    if o.Opened? && o.runtime.session.Some? then {o.runtime.session.value} else {}
  }

  predicate CrossControl(t: Transcript, request: string, control: string) {
    exists e :: e in t.events && e.request == request && e.kind == CustomerValueEvent && e.control != Some(control)
  }

  function EventRequests(t: Transcript): set<string> {
    set e | e in t.events :: e.request
  }

  // ------------------------------------------------------------ what the outcome says

  /** The gates before a session: the expected applicability, an applicable instance with its exact control, a
      managed runtime and a secret to sign with. */
  predicate PassesGates(before: Preflight, expected: string, config: RuntimeConfig, secret: string) {
    && before.fingerprint == expected
    && before.instance.Some? && before.instance.value.state == APPLICABLE && before.instance.value.control.Some?
    && config.ManagedRuntime? && secret != ""
  }

  /** The reason given names the first gate that is shut. */
  predicate NamesShutGate(before: Preflight, expected: string, config: RuntimeConfig, secret: string, why: Why) {
    var current := before.fingerprint == expected;
    var applicable := current && before.instance.Some? && before.instance.value.state == APPLICABLE;
    && (why == STALE_APPLICABILITY_AUTHORITY <==> !current)
    && (why.NOT_APPLICABLE_YET? <==> current && before.instance.Some? && before.instance.value.state != APPLICABLE)
    && (why.NOT_APPLICABLE_YET? ==> why.state == before.instance.value.state)
    && (why == AUTHORITY_MISMATCH <==>
          current && (before.instance.None? || (applicable && before.instance.value.control.None?)))
    && (why == RUNTIME_MODE_UNSUPPORTED <==>
          applicable && before.instance.value.control.Some? && !config.ManagedRuntime?)
    && (why == WEBHOOK_SECRET_UNAVAILABLE <==>
          applicable && before.instance.value.control.Some? && config.ManagedRuntime? && secret == "")
  }

  /** The runtime was opened under the applicability and the configuration that were assessed before. */
  predicate OpenedCurrent(before: Preflight, config: RuntimeConfig, opening: Opening) {
    opening.Opened? && opening.runtime.again.fingerprint == before.fingerprint && opening.runtime.config == config
  }

  /** And the instance found again is the same, and the session is the product's own. */
  predicate Reached(before: Preflight, config: RuntimeConfig, opening: Opening) {
    && OpenedCurrent(before, config, opening) && opening.runtime.again.instance == before.instance
    && opening.runtime.session.Some? && opening.runtime.session.value.managed
  }

  /** How the request was met, if there was an ingress to address and a request to send. */
  function Met(opening: Opening, prepared: Option<Request>, sentBefore: nat): Option<Attempt>
    requires opening.Opened? && opening.runtime.session.Some?
  {
    if opening.runtime.target.Some? && prepared.Some?
    then Some(opening.runtime.session.value.respond(sentBefore, prepared.value)) else None
  }

  predicate RaisesInTry(opening: Opening, prepared: Option<Request>, sentBefore: nat)
    requires opening.Opened? && opening.runtime.session.Some?
  {
    opening.runtime.target.Some? && (prepared.None? || Met(opening, prepared, sentBefore) == Some(Escaped))
  }

  /** A transcript without diagnostics that matches the opened artifact, speaks about the one request only, and
      attributes its customer value to no other control. */
  predicate Vouches(r: Runtime, t: Transcript, request: string, control: string) {
    && r.matching(t) && t.diagnostics == []
    && (forall e :: e in t.events ==> e.request == request) && t.events != []
    && (forall e :: e in t.events && e.kind == CustomerValueEvent ==> e.control == Some(control))
  }

  /** What a verdict rests on: the session was reached, its one request answered, and the transcript sealed by the
      one close vouches for exactly that request. */
  predicate Justified(before: Preflight, config: RuntimeConfig, opening: Opening, prepared: Option<Request>,
                      sentBefore: nat, request: RequestResult, transcript: Transcript)
  {
    && Reached(before, config, opening) && Met(opening, prepared, sentBefore) == Some(Answered(request))
    && opening.runtime.session.value.closing == Sealed(transcript)
    && before.instance.Some? && before.instance.value.control.Some?
    && Vouches(opening.runtime, transcript, request.id, before.instance.value.control.value)
  }

  /** An early close of a session that is not the one asked for is not caught when it fails. */
  predicate ClosesEarly(opening: Opening)
    requires opening.Opened?
  {
    opening.runtime.session.None? || opening.runtime.session.value.closing.Sealed?
  }

  /** Every outcome of an execution whose gates are all open. */
  ghost predicate Explained(before: Preflight, config: RuntimeConfig, opening: Opening, prepared: Option<Request>,
                            sentBefore: nat, o: Outcome)
  {
    var started, current := opening.Opened?, OpenedCurrent(before, config, opening);
    var reached := Reached(before, config, opening);
    var same := started && opening.runtime.again.instance == before.instance;
    var sealed := started && opening.runtime.session.Some? && opening.runtime.session.value.closing.Sealed?;
    && (o == Raised <==>
          || opening.OpenEscaped?
          || (started && !(current && same) && !ClosesEarly(opening))
          || (reached && (RaisesInTry(opening, prepared, sentBefore)
                          || opening.runtime.session.value.closing.CloseEscaped?)))
    && (o == Unresolved(RUNTIME_SESSION_UNAVAILABLE) <==>
          opening.OpenRefused? || (started && current && same && !reached))
    && (o == Unresolved(STALE_APPLICABILITY_AUTHORITY) <==> started && !current && ClosesEarly(opening))
    && (o == Unresolved(RUNTIME_CAPABILITY_INSUFFICIENT) <==>
          reached && sealed && opening.runtime.target.None?)
    && (o == Unresolved(REQUEST_EXECUTION_FAILED) <==>
          reached && sealed && Met(opening, prepared, sentBefore).Some?
          && Met(opening, prepared, sentBefore).value.RuntimeFailed?)
    && (o == Unresolved(TRANSCRIPT_UNTRUSTWORTHY) <==>
          reached && !RaisesInTry(opening, prepared, sentBefore)
          && (opening.runtime.session.value.closing.CloseRefused?
              || (sealed && Met(opening, prepared, sentBefore).Some?
                  && Met(opening, prepared, sentBefore).value.Answered?
                  && var t := opening.runtime.session.value.closing.transcript;
                     !opening.runtime.matching(t) || t.diagnostics != [])))
    && (forall request, transcript ::
          o == Evaluated(request, transcript) <==>
            Justified(before, config, opening, prepared, sentBefore, request, transcript))
    && (o.Unresolved? ==> !o.why.NOT_APPLICABLE_YET? && o.why != RUNTIME_MODE_UNSUPPORTED
                          && o.why != WEBHOOK_SECRET_UNAVAILABLE)
  }

  function SentBefore(opening: Opening): nat
    reads SessionsOf(opening)
  {
    if opening.Opened? && opening.runtime.session.Some? then |opening.runtime.session.value.sent| else 0
  }

  lemma VouchesIff(r: Runtime, t: Transcript, request: string, control: string)
    ensures r.matching(t) && t.diagnostics == [] && EventRequests(t) == {request} && !CrossControl(t, request, control)
       <==> Vouches(r, t, request, control)
  {
    if EventRequests(t) == {request} {
      forall e | e in t.events
        ensures e.request == request
      {
        assert e.request in EventRequests(t);
      }
    }
    if t.events != [] && forall e :: e in t.events ==> e.request == request {
      assert t.events[0] in t.events;
      assert EventRequests(t) == {request};
    }
  }

  /** The body of the try statement and its close: the request that was answered, whether something was
      raised, and how the session closed. */
  method SendOne(session: RuntimeSession, target: Option<Binding>, prepared: Option<Request>)
    returns (answer: Option<RequestResult>, raised: bool, closing: Closing)
    modifies session`sent, session`closes
    ensures session.closes == old(session.closes) + 1 && closing == session.closing
    ensures session.sent == old(session.sent) + if target.Some? && prepared.Some? then [prepared.value] else []
    ensures answer.Some? <==>
      target.Some? && prepared.Some? && session.respond(|old(session.sent)|, prepared.value).Answered?
    ensures answer.Some? ==> session.respond(|old(session.sent)|, prepared.value) == Answered(answer.value)
    ensures raised <==>
      target.Some? && (prepared.None? || session.respond(|old(session.sent)|, prepared.value).Escaped?)
  {
    answer, raised := None, false;
    if target.Some? {
      if prepared.None? {
        raised := true;
      } else {
        var attempt := session.Send(target.value, prepared.value);
        match attempt {
          case Answered(result) => answer := Some(result);
          case RuntimeFailed(_) =>
          case Escaped => raised := true;
        }
      }
    }
    closing := session.Close();
  }

  /** `prepared` is the signed webhook request, None where preparing it raises. A session that was opened is
      closed exactly once whatever happens, and a verdict is given exactly when it is justified. */
  method ExecuteSg01(before: Preflight, expected: string, config: RuntimeConfig, stamp: Stamp, secret: string,
                     opening: Opening, prepared: Option<Request>) returns (o: Outcome)
    requires forall a, b :: stamp(a) == stamp(b) ==> a == b
    requires opening.Opened? ==> SessionFitsConfig(opening.runtime)
    modifies SessionsOf(opening)
    ensures !PassesGates(before, expected, config, secret) ==>
              o.Unresolved? && NamesShutGate(before, expected, config, secret, o.why)
              && forall s :: s in SessionsOf(opening) ==> s.closes == old(s.closes) && s.sent == old(s.sent)
    ensures PassesGates(before, expected, config, secret) ==>
              Explained(before, config, opening, prepared, old(SentBefore(opening)), o)
              && forall s :: s in SessionsOf(opening) ==>
                   s.closes == old(s.closes) + 1
                   && s.sent == old(s.sent) + (if Reached(before, config, opening) && opening.runtime.target.Some?
                                                  && prepared.Some? then [prepared.value] else [])
  {
    if Early(before, expected, config, secret).Some? {
      return Unresolved(Early(before, expected, config, secret).value);
    }
    if opening.OpenRefused? {
      return Unresolved(RUNTIME_SESSION_UNAVAILABLE);
    }
    if opening.OpenEscaped? {
      return Raised;
    }
    var r, control := opening.runtime, before.instance.value.control.value;
    if r.again.fingerprint != before.fingerprint || stamp(r.config) != stamp(config) {
      o := CloseEarly(r.session, STALE_APPLICABILITY_AUTHORITY);
      return;
    }
    if r.again.instance != before.instance {
      o := CloseEarly(r.session, AUTHORITY_MISMATCH);
      return;
    }
    if r.session.None? || !r.session.value.managed {
      return Unresolved(RUNTIME_SESSION_UNAVAILABLE);
    }
    var answer, raised, closing := SendOne(r.session.value, r.target, prepared);
    if raised || closing.CloseEscaped? {
      return Raised;
    }
    if closing.CloseRefused? {
      return Unresolved(TRANSCRIPT_UNTRUSTWORTHY);
    }
    if r.target.None? {
      return Unresolved(RUNTIME_CAPABILITY_INSUFFICIENT);
    }
    if answer.None? {
      return Unresolved(REQUEST_EXECUTION_FAILED);
    }
    var transcript := closing.transcript;
    VouchesIff(r, transcript, answer.value.id, control);
    if !r.matching(transcript) || transcript.diagnostics != [] {
      return Unresolved(TRANSCRIPT_UNTRUSTWORTHY);
    }
    if EventRequests(transcript) != {answer.value.id} || CrossControl(transcript, answer.value.id, control) {
      return Unresolved(AUTHORITY_MISMATCH);
    }
    o := Evaluated(answer.value, transcript);
  }

  /** Outside the try statement a failing close is not caught: the session is closed, the error escapes. */
  method CloseEarly(session: Option<RuntimeSession>, why: Why) returns (o: Outcome)
    modifies if session.Some? then {session.value} else {}
    ensures session.Some? ==> session.value.closes == old(session.value.closes) + 1
                              && session.value.sent == old(session.value.sent)
    ensures o == if session.Some? && !session.value.closing.Sealed? then Raised else Unresolved(why)
  {
    if session.Some? {
      var closing := session.value.Close();
      if !closing.Sealed? {
        return Raised;
      }
    }
    o := Unresolved(why);
  }
}
