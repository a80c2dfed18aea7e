/** The client side of the link to the agent server: per conversation it
    keeps the stream, complete and error callbacks of the chat message that
    is waiting for an answer. Callbacks are opaque handles; what a transition
    does to them is recorded as the list of calls it makes. The socket itself
    is reduced to whether it is connected. */
module AgentClient {

  /** A callback, known only by its identity. */
  type Handler = nat

  datatype Registry = Registry(
    connected: bool,
    stream: map<string, Handler>,
    complete: map<string, Handler>,
    error: map<string, Handler>)

  /** The payload a callback is called with. */
  datatype Payload =
    | Chunk(chunk: string, index: int)
    | Done(fullResponse: string)
    | Failed(message: string)

  /** One callback call, with the conversation the payload names. */
  datatype Call = Call(handler: Handler, conversationId: string, payload: Payload)

  /** The `chat:send` message forwarded to the agent. */
  datatype Outgoing = ChatSend(message: string, conversationId: string, userId: int, userToken: string)

  /** The state after a transition, the callbacks it called, in order, and
      what it sent to the agent. */
  datatype Step = Step(registry: Registry, calls: seq<Call>, sent: seq<Outgoing>)

  const NOT_CONNECTED: string := "Not connected to Agent Server"

  /** Every conversation has all three callbacks or none. */
  predicate Aligned(r: Registry) {
    r.stream.Keys == r.complete.Keys && r.complete.Keys == r.error.Keys
  }

  /** `cleanupCallbacks(conversationId)` */
  function CleanupCallbacks(r: Registry, conversationId: string): (r': Registry)
    ensures r'.connected == r.connected
    ensures r'.stream.Keys == r.stream.Keys - {conversationId}
    ensures r'.complete.Keys == r.complete.Keys - {conversationId}
    ensures r'.error.Keys == r.error.Keys - {conversationId}
    ensures forall c :: c in r'.stream ==> r'.stream[c] == r.stream[c]
    ensures forall c :: c in r'.complete ==> r'.complete[c] == r.complete[c]
    ensures forall c :: c in r'.error ==> r'.error[c] == r.error[c]
  {
    r.(stream := r.stream - {conversationId}, complete := r.complete - {conversationId}, error := r.error - {conversationId})
  }

  /** `sendMessage`: while disconnected the error callback is called once
      and nothing is registered or sent; otherwise the three callbacks are
      registered under the conversation, replacing any earlier ones, and the
      message is sent. */
  function SendMessage(r: Registry, message: string, conversationId: string, userId: int, userToken: string,
                       onStream: Handler, onComplete: Handler, onError: Handler): (s: Step)
    ensures !r.connected ==> s == Step(r, [Call(onError, conversationId, Failed(NOT_CONNECTED))], [])
    ensures r.connected ==>
      (s.calls == [] && s.sent == [ChatSend(message, conversationId, userId, userToken)]
       && s.registry.connected
       && s.registry.stream.Keys == r.stream.Keys + {conversationId}
       && s.registry.complete.Keys == r.complete.Keys + {conversationId}
       && s.registry.error.Keys == r.error.Keys + {conversationId}
       && s.registry.stream[conversationId] == onStream
       && s.registry.complete[conversationId] == onComplete
       && s.registry.error[conversationId] == onError
       && (forall c :: c in r.stream && c != conversationId ==> s.registry.stream[c] == r.stream[c])
       && (forall c :: c in r.complete && c != conversationId ==> s.registry.complete[c] == r.complete[c])
       && (forall c :: c in r.error && c != conversationId ==> s.registry.error[c] == r.error[c]))
  {
    if !r.connected then Step(r, [Call(onError, conversationId, Failed(NOT_CONNECTED))], [])
    else
      var r' := r.(stream := r.stream[conversationId := onStream],
                   complete := r.complete[conversationId := onComplete],
                   error := r.error[conversationId := onError]);
      Step(r', [], [ChatSend(message, conversationId, userId, userToken)])
  }

  /** The calls a lookup makes: the registered callback, if any. */
  function CallIfPresent(m: map<string, Handler>, conversationId: string, payload: Payload): (calls: seq<Call>)
    ensures |calls| <= 1
    ensures |calls| == 1 <==> conversationId in m
    ensures |calls| == 1 ==> calls[0] == Call(m[conversationId], conversationId, payload)
  {
    if conversationId in m then [Call(m[conversationId], conversationId, payload)] else []
  }

  /** The `chat:stream` handler: call the stream callback; keep everything. */
  function OnStream(r: Registry, conversationId: string, chunk: string, index: int): (s: Step)
    ensures s.registry == r && s.sent == []
    ensures s.calls == CallIfPresent(r.stream, conversationId, Chunk(chunk, index))
  {
    Step(r, CallIfPresent(r.stream, conversationId, Chunk(chunk, index)), [])
  }

  /** The `chat:complete` handler: call the complete callback, then drop
      all three callbacks of that conversation. */
  function OnComplete(r: Registry, conversationId: string, fullResponse: string): (s: Step)
    ensures s.registry == CleanupCallbacks(r, conversationId) && s.sent == []
    ensures s.calls == CallIfPresent(r.complete, conversationId, Done(fullResponse))
  {
    Step(CleanupCallbacks(r, conversationId), CallIfPresent(r.complete, conversationId, Done(fullResponse)), [])
  }

  /** The `chat:error` handler: call the error callback, then drop all
      three callbacks of that conversation. */
  function OnError(r: Registry, conversationId: string, message: string): (s: Step)
    ensures s.registry == CleanupCallbacks(r, conversationId) && s.sent == []
    ensures s.calls == CallIfPresent(r.error, conversationId, Failed(message))
  {
    Step(CleanupCallbacks(r, conversationId), CallIfPresent(r.error, conversationId, Failed(message)), [])
  }

  /** `disconnect`: the socket is dropped and every callback forgotten. */
  function Disconnect(r: Registry): (r': Registry)
    ensures !r'.connected && |r'.stream| == 0 && |r'.complete| == 0 && |r'.error| == 0
  {
    Registry(false, map[], map[], map[])
  }

  /** Every transition keeps the three maps on the same conversations. */
  lemma TransitionsKeepAligned(r: Registry, message: string, conversationId: string, userId: int, userToken: string,
                               h1: Handler, h2: Handler, h3: Handler, text: string, index: int)
    requires Aligned(r)
    ensures Aligned(SendMessage(r, message, conversationId, userId, userToken, h1, h2, h3).registry)
    ensures Aligned(OnStream(r, conversationId, text, index).registry)
    ensures Aligned(OnComplete(r, conversationId, text).registry)
    ensures Aligned(OnError(r, conversationId, text).registry)
    ensures Aligned(Disconnect(r))
  {
  }

  /** A sent message's callbacks answer its conversation: every chunk goes to
      its stream callback, which stays registered; the completion reaches its
      complete callback once, and a second completion reaches nothing. */
  lemma ConversationLifecycle(r: Registry, message: string, conversationId: string, userId: int, userToken: string,
                              onStream: Handler, onComplete: Handler, onError: Handler, chunk: string, index: int, full: string)
    requires r.connected
    ensures var sent := SendMessage(r, message, conversationId, userId, userToken, onStream, onComplete, onError).registry;
            var streamed := OnStream(sent, conversationId, chunk, index);
            var done := OnComplete(streamed.registry, conversationId, full);
            streamed.calls == [Call(onStream, conversationId, Chunk(chunk, index))]
            && done.calls == [Call(onComplete, conversationId, Done(full))]
            && OnComplete(done.registry, conversationId, full).calls == []
            && OnError(done.registry, conversationId, full).calls == []
  {
  }

  /** A completion or an error for one conversation leaves the callbacks of
      every other conversation in place. */
  lemma OtherConversationsUntouched(r: Registry, conversationId: string, other: string, text: string)
    requires other != conversationId && other in r.stream && other in r.complete && other in r.error
    ensures var s := OnComplete(r, conversationId, text).registry;
            other in s.stream && s.stream[other] == r.stream[other]
            && other in s.complete && s.complete[other] == r.complete[other]
            && other in s.error && s.error[other] == r.error[other]
    ensures var s := OnError(r, conversationId, text).registry;
            other in s.stream && s.stream[other] == r.stream[other]
            && other in s.complete && s.complete[other] == r.complete[other]
            && other in s.error && s.error[other] == r.error[other]
  {
  }
}
