/** A runtime session as its users see it: requests are answered, fail, or raise; closing seals a
    transcript, is refused, or raises. */
module RuntimeSessions {
  import opened Foundations

  datatype Binding = Binding(ingress: string, route: string)

  /** Header, body and acknowledgement options are opaque to the dispatcher. */
  datatype Request = Request(content: string)

  datatype RequestResult = RequestResult(id: string, binding: Binding)

  /** `RuntimeFailed` is a RuntimeSessionError with its reason, `Escaped` any other exception. */
  datatype Attempt = Answered(result: RequestResult) | RuntimeFailed(reason: string) | Escaped

  datatype EventKind = RequestReceived | CustomerValueEvent | OtherEvent

  datatype Event = Event(request: string, kind: EventKind, ingress: string, route: string, control: Option<string>)

  datatype Transcript = Transcript(events: seq<Event>, diagnostics: seq<string>)

  /** `CloseRefused` is an OSError or a ValueError, `CloseEscaped` any other exception. */
  datatype Closing = Sealed(transcript: Transcript) | CloseRefused | CloseEscaped

  class RuntimeSession {
    /** Managed by the product, or brought by the user. */
    const managed: bool
    /** How the n-th request is met. */
    const respond: (nat, Request) -> Attempt
    const closing: Closing

    var sent: seq<Request>
    var closes: nat

    constructor (managed: bool, respond: (nat, Request) -> Attempt, closing: Closing)
      ensures this.managed == managed && this.respond == respond && this.closing == closing
      ensures sent == [] && closes == 0
    {
      this.managed, this.respond, this.closing := managed, respond, closing;
      sent, closes := [], 0;
    }

    method Send(binding: Binding, request: Request) returns (a: Attempt)
      modifies this`sent
      ensures sent == old(sent) + [request]
      ensures a == respond(|old(sent)|, request)
    {
      a := respond(|sent|, request);
      sent := sent + [request];
    }

    method Close() returns (c: Closing)
      modifies this`closes
      ensures closes == old(closes) + 1 && c == closing
    {
      closes := closes + 1;
      c := closing;
    }
  }
}
