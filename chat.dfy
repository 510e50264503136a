/**
 * The chat route's `POST` handler and the process-wide `sessions` map it
 * updates: validation, session lookup, model-input assembly, the inference
 * call, and the bounded history append.
 */
module Chat {
  import opened Wrappers
  import opened Knowledge
  import opened Prompt

  datatype Role = System | User | Assistant

  /** One `{ role, content }` message, as stored in a history and sent for inference. */
  datatype Message = Message(role: Role, content: string)

  /** The parsed request body `{ message, session_id }`; a missing field is None. */
  datatype ChatRequest = ChatRequest(message: Option<string>, sessionId: Option<string>)

  /** A thrown value: an `Error` with its message, or anything else. */
  datatype Thrown = ErrorObject(message: string) | OtherValue

  /** The completion call: it throws, or yields `choices[0]?.message?.content`. */
  datatype Completion = Threw(thrown: Thrown) | Replied(content: Option<string>)

  /** The JSON answer: 200 `{ response, session_id }` or `{ error }` with a status. */
  datatype Response = Reply(response: string, sessionId: string) | Failed(status: int, error: string)

  type Sessions = map<string, seq<Message>>

  /** What one request answers and the store it leaves. */
  datatype Outcome = Outcome(response: Response, sessions: Sessions)

  const HistoryLimit: nat := 20
  const FallbackReply: string := "Sorry, I could not generate a response."
  const MessageRequired: string := "Message is required"
  const GenericError: string := "An error occurred"

  /** JavaScript truthiness of an optional string field: present and truthy as a JSON string. */
  predicate Truthy(s: Option<string>) {
    s.Some? && Json.Truthy(Json.JStr(s.value))
  }

  function Min(a: int, b: int): int {
    if a < b then a else b
  }

  /** `session_id || crypto.randomUUID()`, with the generated id passed in. */
  function ResolveSessionId(supplied: Option<string>, freshId: string): string {
    if Truthy(supplied) then supplied.value else freshId
  }

  /** `sessions.get(sessionId) || []`. */
  function History(sessions: Sessions, id: string): seq<Message> {
    if id in sessions then sessions[id] else []
  }

  /** The messages sent for inference: the system prompt, the history in order, then the new message. */
  function ModelInput(system: string, history: seq<Message>, message: string): (r: seq<Message>)
    ensures |r| == |history| + 2
    ensures r[0] == Message(System, system) && r[|r| - 1] == Message(User, message)
    ensures r[1..|r| - 1] == history
  {
    [Message(System, system)] + history + [Message(User, message)]
  }

  /** The reply text: an empty or absent completion becomes the fallback apology. */
  function ReplyText(content: Option<string>): (r: string)
    ensures r != ""
    ensures Truthy(content) ==> r == content.value
    ensures !Truthy(content) ==> r == FallbackReply
  {
    if Truthy(content) then content.value else FallbackReply
  }

  /** `error instanceof Error ? error.message : 'An error occurred'`. */
  function ErrorMessage(t: Thrown): string {
    match t
    case ErrorObject(m) => m
    case OtherValue => GenericError
  }

  /** `conversation.slice(-20)` when it is longer than 20. */
  function KeepLast(h: seq<Message>): seq<Message> {
    if |h| > HistoryLimit then h[|h| - HistoryLimit..] else h
  }

  /** The history after one exchange: both turns appended, then the oldest dropped beyond 20. */
  function Appended(history: seq<Message>, message: string, reply: string): seq<Message> {
    KeepLast(history + [Message(User, message), Message(Assistant, reply)])
  }

  /**
   * One `POST` against the store `sessions`. `system` is what building the
   * system prompt gives (Failure when the knowledge load throws) and `infer`
   * the completion call.
   */
  function Handle(sessions: Sessions, request: Result<ChatRequest, string>, freshId: string,
                  system: Result<string, string>, infer: seq<Message> -> Completion): (o: Outcome)
    ensures o.response == Failed(400, MessageRequired) <==> request.Success? && !Truthy(request.value.message)
    ensures o.response.Failed? ==> o.sessions == sessions
    ensures o.response.Failed? && o.response.status == 500 <==>
              request.Failure? ||
              (Truthy(request.value.message) &&
               (system.Failure? ||
                infer(ModelInput(system.value,
                                 History(sessions, ResolveSessionId(request.value.sessionId, freshId)),
                                 request.value.message.value)).Threw?))
    ensures request.Failure? ==> o.response == Failed(500, request.error)
    ensures request.Success? && Truthy(request.value.message) && system.Failure? ==>
              o.response == Failed(500, system.error)
    ensures request.Success? && Truthy(request.value.message) && system.Success? ==>
              var id := ResolveSessionId(request.value.sessionId, freshId);
              var completion := infer(ModelInput(system.value, History(sessions, id), request.value.message.value));
              (completion.Threw? ==> o.response == Failed(500, ErrorMessage(completion.thrown))) &&
              (completion.Replied? <==> o.response.Reply?)
    ensures o.response.Reply? ==>
              request.Success? && Truthy(request.value.message) && system.Success? &&
              o.response.sessionId == ResolveSessionId(request.value.sessionId, freshId) &&
              var id, message := o.response.sessionId, request.value.message.value;
              var completion := infer(ModelInput(system.value, History(sessions, id), message));
              completion.Replied? && o.response.response == ReplyText(completion.content) &&
              o.sessions == sessions[id := Appended(History(sessions, id), message, o.response.response)]
  {
    match request
    case Failure(reason) => Outcome(Failed(500, reason), sessions)
    case Success(req) =>
      if !Truthy(req.message) then Outcome(Failed(400, MessageRequired), sessions)
      else
        var id := ResolveSessionId(req.sessionId, freshId);
        var history := History(sessions, id);
        match system
        case Failure(reason) => Outcome(Failed(500, reason), sessions)
        case Success(prompt) =>
          match infer(ModelInput(prompt, history, req.message.value))
          case Threw(t) => Outcome(Failed(500, ErrorMessage(t)), sessions)
          case Replied(content) =>
            var reply := ReplyText(content);
            Outcome(Reply(reply, id), sessions[id := Appended(history, req.message.value, reply)])
  }

  // ------------------------------------------------------------ histories

  /**
   * A stored history: at most 20 turns, an even number of them, alternating
   * user and assistant and starting with the user.
   */
  ghost predicate WellFormed(h: seq<Message>) {
    |h| <= HistoryLimit && |h| % 2 == 0 &&
    forall i :: 0 <= i < |h| ==> h[i].role == if i % 2 == 0 then User else Assistant
  }

  /** One exchange keeps a history well formed: truncation drops an even number of turns. */
  lemma AppendedWellFormed(h: seq<Message>, message: string, reply: string)
    requires WellFormed(h)
    ensures WellFormed(Appended(h, message, reply))
  {
    var full := h + [Message(User, message), Message(Assistant, reply)];
    var r := Appended(h, message, reply);
    var d := |full| - |r|;
    assert d == 0 || d == 2;
    forall i | 0 <= i < |r|
      ensures r[i].role == if i % 2 == 0 then User else Assistant
    {
      assert r[i] == full[i + d];
      if i + d < |h| {
        assert full[i + d] == h[i + d];
      }
    }
  }

  /** Every history in the store is well formed. */
  ghost predicate AllWellFormed(sessions: Sessions) {
    forall id :: id in sessions ==> WellFormed(sessions[id])
  }

  /** `POST` keeps every stored history well formed, whatever the request and the model answer. */
  lemma HandlePreservesWellFormed(sessions: Sessions, request: Result<ChatRequest, string>, freshId: string,
                                  system: Result<string, string>, infer: seq<Message> -> Completion)
    requires AllWellFormed(sessions)
    ensures AllWellFormed(Handle(sessions, request, freshId, system, infer).sessions)
  {
    var o := Handle(sessions, request, freshId, system, infer);
    if o.response.Reply? {
      var id, message := o.response.sessionId, request.value.message.value;
      AppendedWellFormed(History(sessions, id), message, o.response.response);
    }
  }

  /** The new history is the last min(|old| + 2, 20) turns of the old one followed by the exchange. */
  lemma AppendedKeepsNewest(h: seq<Message>, message: string, reply: string)
    ensures var full := h + [Message(User, message), Message(Assistant, reply)];
            |Appended(h, message, reply)| == Min(|h| + 2, HistoryLimit) &&
            Appended(h, message, reply) == full[|full| - Min(|h| + 2, HistoryLimit)..]
  {
  }

  /** Truncating before appending keeps the same newest turns as truncating once afterwards. */
  lemma KeepLastAbsorbs(a: seq<Message>, b: seq<Message>)
    ensures KeepLast(KeepLast(a) + b) == KeepLast(a + b)
  {
    if |a| > HistoryLimit {
      var ka := KeepLast(a);
      var left, right := ka + b, a + b;
      if b == [] {
        assert left == ka && right == a;
      } else {
        var l, r := left[|left| - HistoryLimit..], right[|right| - HistoryLimit..];
        forall k | 0 <= k < HistoryLimit
          ensures l[k] == r[k]
        {
          if |b| + k < HistoryLimit {
            assert l[k] == ka[|b| + k] == a[|a| - HistoryLimit + |b| + k];
          } else {
            assert l[k] == b[k + |b| - HistoryLimit];
          }
        }
        assert l == r;
      }
    }
  }

  /** The turns of a series of (message, reply) exchanges, in order. */
  function Turns(xs: seq<(string, string)>): (r: seq<Message>)
    ensures |r| == 2 * |xs|
  {
    if xs == [] then []
    else
      var x := xs[|xs| - 1];
      Turns(xs[..|xs| - 1]) + [Message(User, x.0), Message(Assistant, x.1)]
  }

  /** The history after the exchanges `xs`, one `Appended` each, starting from `h`. */
  function Replay(h: seq<Message>, xs: seq<(string, string)>): seq<Message> {
    if xs == [] then h
    else
      var x := xs[|xs| - 1];
      Appended(Replay(h, xs[..|xs| - 1]), x.0, x.1)
  }

  /** Replaying exchanges keeps the newest 20 turns of everything said, whatever the starting history. */
  lemma {:induction false} ReplayKeepsNewest(h: seq<Message>, xs: seq<(string, string)>)
    requires |h| <= HistoryLimit
    ensures Replay(h, xs) == KeepLast(h + Turns(xs))
  {
    if xs != [] {
      var x := xs[|xs| - 1];
      var pair := [Message(User, x.0), Message(Assistant, x.1)];
      ReplayKeepsNewest(h, xs[..|xs| - 1]);
      KeepLastAbsorbs(h + Turns(xs[..|xs| - 1]), pair);
      assert h + Turns(xs) == (h + Turns(xs[..|xs| - 1])) + pair;
    }
  }

  /**
   * After N exchanges on a fresh session the history holds min(2N, 20) turns,
   * the newest ones said.
   */
  lemma ExchangesOnFreshSession(xs: seq<(string, string)>)
    ensures |Replay([], xs)| == Min(2 * |xs|, HistoryLimit)
    ensures Replay([], xs) == Turns(xs)[2 * |xs| - Min(2 * |xs|, HistoryLimit)..]
  {
    ReplayKeepsNewest([], xs);
    assert [] + Turns(xs) == Turns(xs);
  }

  /** One request of a conversation: its message, the prompt built for it, and its completion call. */
  datatype Step = Step(message: string, system: Result<string, string>, infer: seq<Message> -> Completion)

  /** What one request does: from the store before it, its outcome. */
  type Transition = (Sessions, Step) -> Outcome

  /** The handler answering a request that carries session id `id`, as a function value. */
  function Deliver(id: string): Transition {
    (store: Sessions, step: Step) => Handle(store, Success(ChatRequest(Some(step.message), Some(id))), id, step.system, step.infer)
  }

  /** The outcomes of sending `steps` in order through `send`, starting from `sessions`. */
  function Run(sessions: Sessions, send: Transition, steps: seq<Step>): (r: seq<Outcome>)
    ensures |r| == |steps|
  {
    if steps == [] then []
    else
      var before := Run(sessions, send, steps[..|steps| - 1]);
      before + [send(StoreAfter(sessions, before), steps[|steps| - 1])]
  }

  /** The store after a series of outcomes: the last one's, or the starting store when there is none. */
  function StoreAfter(sessions: Sessions, outcomes: seq<Outcome>): Sessions {
    if outcomes == [] then sessions else outcomes[|outcomes| - 1].sessions
  }

  /** The (message, reply) pairs of a series of requests that all replied. */
  function Exchanges(steps: seq<Step>, outcomes: seq<Outcome>): (xs: seq<(string, string)>)
    requires |outcomes| == |steps|
    requires forall i :: 0 <= i < |outcomes| ==> outcomes[i].response.Reply?
    ensures |xs| == |steps|
  {
    if steps == [] then []
    else
      Exchanges(steps[..|steps| - 1], outcomes[..|outcomes| - 1]) +
      [(steps[|steps| - 1].message, outcomes[|outcomes| - 1].response.response)]
  }

  /** Every reply of `send` carries `id` and appends its exchange to the history stored under `id`. */
  ghost predicate AppendsTo(send: Transition, id: string) {
    forall store, step ::
      send(store, step).response.Reply? ==>
        send(store, step).response.sessionId == id &&
        History(send(store, step).sessions, id) ==
          Appended(History(store, id), step.message, send(store, step).response.response)
  }

  /** One request that replies on session `id` appends its exchange to that session's history. */
  lemma DeliverAppends(id: string)
    requires id != ""
    ensures AppendsTo(Deliver(id), id)
  {
    assert ResolveSessionId(Some(id), id) == id;
  }

  lemma {:induction false} RunAppends(sessions: Sessions, send: Transition, id: string, steps: seq<Step>)
    requires AppendsTo(send, id)
    requires forall i :: 0 <= i < |steps| ==> Run(sessions, send, steps)[i].response.Reply?
    ensures forall i :: 0 <= i < |steps| ==> Run(sessions, send, steps)[i].response.sessionId == id
    ensures History(StoreAfter(sessions, Run(sessions, send, steps)), id) ==
              Replay(History(sessions, id), Exchanges(steps, Run(sessions, send, steps)))
  {
    if steps != [] {
      var pre := steps[..|steps| - 1];
      var outs := Run(sessions, send, steps);
      var before := Run(sessions, send, pre);
      assert outs[..|outs| - 1] == before;
      forall i | 0 <= i < |pre|
        ensures before[i].response.Reply?
      {
        assert before[i] == outs[i];
      }
      RunAppends(sessions, send, id, pre);
      var xs := Exchanges(steps, outs);
      assert xs[..|xs| - 1] == Exchanges(pre, before);
    }
  }

  /**
   * Requests that all reply on one session id leave that session's history
   * equal to replaying their exchanges, one `Appended` each, onto the
   * history the session had before; each reply carries that id.
   */
  lemma RunReplays(sessions: Sessions, id: string, steps: seq<Step>)
    requires id != ""
    requires forall i :: 0 <= i < |steps| ==> Run(sessions, Deliver(id), steps)[i].response.Reply?
    ensures forall i :: 0 <= i < |steps| ==> Run(sessions, Deliver(id), steps)[i].response.sessionId == id
    ensures History(StoreAfter(sessions, Run(sessions, Deliver(id), steps)), id) ==
              Replay(History(sessions, id), Exchanges(steps, Run(sessions, Deliver(id), steps)))
  {
    DeliverAppends(id);
    RunAppends(sessions, Deliver(id), id, steps);
  }

  /**
   * Hence requests that all reply on one session keep its newest 20 turns of
   * everything said on it; on a new session, the newest min(2N, 20) turns.
   */
  lemma RunKeepsNewest(sessions: Sessions, id: string, steps: seq<Step>)
    requires id != "" && AllWellFormed(sessions)
    requires forall i :: 0 <= i < |steps| ==> Run(sessions, Deliver(id), steps)[i].response.Reply?
    ensures History(StoreAfter(sessions, Run(sessions, Deliver(id), steps)), id) ==
              KeepLast(History(sessions, id) + Turns(Exchanges(steps, Run(sessions, Deliver(id), steps))))
    ensures id !in sessions ==>
              |History(StoreAfter(sessions, Run(sessions, Deliver(id), steps)), id)| == Min(2 * |steps|, HistoryLimit)
  {
    var xs := Exchanges(steps, Run(sessions, Deliver(id), steps));
    RunReplays(sessions, id, steps);
    ReplayKeepsNewest(History(sessions, id), xs);
    ExchangesOnFreshSession(xs);
  }

  /**
   * Supplying the session id a successful request returned makes the next
   * request send that request's exchange, after the earlier history, to the
   * model, and store its own exchange after it under the same id.
   */
  lemma ResumedSessionSeesHistory(sessions: Sessions, first: ChatRequest, freshId: string,
                                  system: Result<string, string>, infer: seq<Message> -> Completion,
                                  message: string, freshId2: string, system2: string,
                                  infer2: seq<Message> -> Completion)
    requires Handle(sessions, Success(first), freshId, system, infer).response.Reply?
    requires freshId != "" && message != ""
    ensures var o := Handle(sessions, Success(first), freshId, system, infer);
            var id := o.response.sessionId;
            var earlier := Appended(History(sessions, id), first.message.value, o.response.response);
            var next := Handle(o.sessions, Success(ChatRequest(Some(message), Some(id))), freshId2, Success(system2), infer2);
            var completion := infer2([Message(System, system2)] + earlier + [Message(User, message)]);
            (completion.Threw? ==> next.response == Failed(500, ErrorMessage(completion.thrown))) &&
            (completion.Replied? ==>
               next.response == Reply(ReplyText(completion.content), id) &&
               next.sessions[id] == Appended(earlier, message, ReplyText(completion.content)))
  {
    var o := Handle(sessions, Success(first), freshId, system, infer);
    var id := o.response.sessionId;
    assert ResolveSessionId(Some(id), freshId2) == id;
    assert History(o.sessions, id) == Appended(History(sessions, id), first.message.value, o.response.response);
  }

  /** Pushes the user turn and the assistant turn, then keeps the newest 20. */
  method Remember(history: seq<Message>, message: string, reply: string) returns (conversation: seq<Message>)
    ensures conversation == Appended(history, message, reply)
  {
    conversation := history + [Message(User, message)];
    conversation := conversation + [Message(Assistant, reply)];
    if |conversation| > HistoryLimit {
      conversation := conversation[|conversation| - HistoryLimit..];
    }
  }

  /** The process-wide `sessions` map and the route handler that updates it. */
  class SessionStore {
    var sessions: Sessions

    /** Every stored history is well formed. */
    ghost predicate Valid()
      reads this
    {
      AllWellFormed(sessions)
    }

    constructor ()
      ensures Valid() && sessions == map[]
    {
      sessions := map[];
    }

    /**
     * `POST`: answers the request and updates the store exactly as `Handle`
     * says, building the system prompt from the directory `dir` at instant `now`.
     */
    method Post(request: Result<ChatRequest, string>, freshId: string, dir: Directory, now: string,
                codec: Json.Codec, infer: seq<Message> -> Completion) returns (response: Response)
      requires Valid()
      modifies this
      ensures Valid()
      ensures Outcome(response, sessions) ==
                Handle(old(sessions), request, freshId, PromptFor(dir, now, codec), infer)
    {
      if request.Failure? {
        return Failed(500, request.error);
      }
      var message, sessionId := request.value.message, request.value.sessionId;
      if !Truthy(message) {
        return Failed(400, MessageRequired);
      }
      var id := ResolveSessionId(sessionId, freshId);
      var conversation := if id in sessions then sessions[id] else [];
      var system := BuildSystemPrompt(dir, now, codec);
      if system.Failure? {
        return Failed(500, system.error);
      }
      var messages := [Message(System, system.value)] + conversation + [Message(User, message.value)];
      assert messages == ModelInput(system.value, History(sessions, id), message.value);
      var completion := infer(messages);
      if completion.Threw? {
        return Failed(500, ErrorMessage(completion.thrown));
      }
      var assistantResponse := ReplyText(completion.content);
      conversation := Remember(conversation, message.value, assistantResponse);
      HandlePreservesWellFormed(sessions, request, freshId, system, infer);
      sessions := sessions[id := conversation];
      response := Reply(assistantResponse, id);
    }
  }
}
