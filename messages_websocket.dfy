/** The message-cache reducer of the room subscription
    (src/hooks/use-messages-web-sockets.tsx): every decoded event is turned into an
    updater of the room's cached snapshot, which is installed in the query cache
    under the key `["messages", roomId]`. */
module MessagesWebSocket {
  import opened Prelude
  import opened RoomMessages
  import opened QueryCache

  /** A `kind` outside the four literals the handler has a `case` for. */
  type OtherKind = k: string |
    && k != "message_created"
    && k != "message_answered"
    && k != "message_reaction_increased"
    && k != "message_reaction_decreased"
    witness ""

  /** An inbound event, already decoded. `Unknown` stands for a frame whose `kind`
      is none of the four literals, for which the handler has no `case`. */
  datatype Event =
    | MessageCreated(id: string, message: string)
    | MessageAnswered(id: string)
    | MessageReactionIncreased(id: string, count: int)
    | MessageReactionDecreased(id: string, count: int)
    | Unknown(kind: OtherKind)

  /** The events that update existing records in place. */
  predicate IsMutation(e: Event)
  {
    e.MessageAnswered? || e.MessageReactionIncreased? || e.MessageReactionDecreased?
  }

  /** The cache key of a room's snapshot. */
  function MessagesKey(roomId: string): QueryKey
  {
    ["messages", roomId]
  }

  /** Distinct rooms have distinct cache keys, so one room's snapshot is never
      shared with, or merged into, another's. */
  lemma MessagesKeyInjective(a: string, b: string)
    ensures MessagesKey(a) == MessagesKey(b) <==> a == b
  {
  }

  /** `state?.messages ?? []`: an absent snapshot reads as no messages. */
  function MessagesOf(state: Option<MessagesResponse>): seq<Message>
  {
    if state.Some? then state.value.messages else []
  }

  /** The record appended for `message_created`. */
  function NewMessage(id: string, message: string): Message
  {
    Message(id, message, 0, false, None)
  }

  /** Updater for `message_created`: the old messages, or none when the snapshot is
      absent, followed by exactly one new record; ids already present are not checked. */
  function OnCreated(state: Option<MessagesResponse>, id: string, message: string): (r: MessagesResponse)
    ensures |r.messages| == |MessagesOf(state)| + 1
    ensures r.messages[..|MessagesOf(state)|] == MessagesOf(state)
    ensures r.messages[|MessagesOf(state)|] ==
      Message(id, message, 0, false, None)
  {
    MessagesResponse(MessagesOf(state) + [NewMessage(id, message)])
  }

  /** The callback of the `message_answered` map. */
  function AnswerIfMatch(id: string, m: Message): Message
  {
    if m.id == id then m.(answered := true) else m
  }

  /** `messages.map(...)` for `message_answered`: the same records in the same order;
      a record whose id matches is now answered, and no other field of any record,
      nor the answered flag of a record that does not match, changes. */
  function MarkAnswered(ms: seq<Message>, id: string): (r: seq<Message>)
    ensures |r| == |ms|
    ensures forall i :: 0 <= i < |ms| ==>
      && r[i].id == ms[i].id
      && r[i].text == ms[i].text
      && r[i].amountOfReactions == ms[i].amountOfReactions
      && r[i].roomId == ms[i].roomId
      && r[i].answered == (ms[i].answered || ms[i].id == id)
  {
    MapSeq(ms, m => AnswerIfMatch(id, m))
  }

  /** The callback of the reaction-count map. */
  function CountIfMatch(id: string, count: int, m: Message): Message
  {
    if m.id == id then m.(amountOfReactions := count) else m
  }

  /** `messages.map(...)` for a reaction-count event: the same records in the same
      order; a record whose id matches now holds `count` as its (absolute) number of
      reactions, and nothing else changes. */
  function SetReactionCount(ms: seq<Message>, id: string, count: int): (r: seq<Message>)
    ensures |r| == |ms|
    ensures forall i :: 0 <= i < |ms| ==>
      && r[i].id == ms[i].id
      && r[i].text == ms[i].text
      && r[i].answered == ms[i].answered
      && r[i].roomId == ms[i].roomId
      && r[i].amountOfReactions == (if ms[i].id == id then count else ms[i].amountOfReactions)
  {
    MapSeq(ms, m => CountIfMatch(id, count, m))
  }

  /** Updater for `message_answered`: `undefined` stays `undefined`. */
  function OnAnswered(state: Option<MessagesResponse>, id: string): (r: Option<MessagesResponse>)
    ensures r.Some? <==> state.Some?
    ensures r.Some? ==> r.value.messages == MarkAnswered(state.value.messages, id)
  {
    if state.None? then None
    else Some(MessagesResponse(MarkAnswered(state.value.messages, id)))
  }

  /** Updater shared by `message_reaction_increased` and `message_reaction_decreased`:
      `undefined` stays `undefined`. */
  function OnReactionCount(state: Option<MessagesResponse>, id: string, count: int): (r: Option<MessagesResponse>)
    ensures r.Some? <==> state.Some?
    ensures r.Some? ==> r.value.messages == SetReactionCount(state.value.messages, id, count)
  {
    if state.None? then None
    else Some(MessagesResponse(SetReactionCount(state.value.messages, id, count)))
  }

  /** The snapshot after one event: a creation always yields a snapshot one record
      longer; an update event keeps the snapshot absent or present and keeps its
      length; an unknown kind leaves it as it was. */
  function Reduce(state: Option<MessagesResponse>, e: Event): (r: Option<MessagesResponse>)
    ensures e.MessageCreated? ==> r.Some? && |MessagesOf(r)| == |MessagesOf(state)| + 1
    ensures IsMutation(e) ==> (r.Some? <==> state.Some?) && |MessagesOf(r)| == |MessagesOf(state)|
    ensures e.Unknown? ==> r == state
  {
    match e
    case MessageCreated(id, message) => Some(OnCreated(state, id, message))
    case MessageAnswered(id) => OnAnswered(state, id)
    case MessageReactionIncreased(id, count) => OnReactionCount(state, id, count)
    case MessageReactionDecreased(id, count) => OnReactionCount(state, id, count)
    case Unknown(_) => state
  }

  /** The snapshot after a sequence of events, applied in arrival order. It is absent
      afterwards exactly when it was absent before and no creation arrived, and it
      never holds fewer records than before. */
  function ReduceAll(state: Option<MessagesResponse>, events: seq<Event>): (r: Option<MessagesResponse>)
    ensures r.None? <==> state.None? && forall k :: 0 <= k < |events| ==> !events[k].MessageCreated?
    ensures |MessagesOf(r)| >= |MessagesOf(state)|
    decreases |events|
  {
    if events == [] then state else ReduceAll(Reduce(state, events[0]), events[1..])
  }

  /** The whole cache after one frame for room `roomId`: only the room's own entry can
      change, and an unknown kind changes nothing. */
  function Dispatch(cache: map<QueryKey, MessagesResponse>, roomId: string, e: Event)
    : (r: map<QueryKey, MessagesResponse>)
    ensures forall k :: k != MessagesKey(roomId) ==> GetQueryData(r, k) == GetQueryData(cache, k)
    ensures e.Unknown? ==> r == cache
  {
    if e.Unknown? then cache
    else
      var key := MessagesKey(roomId);
      Install(cache, key, Reduce(GetQueryData(cache, key), e))
  }

  /** The whole cache after a sequence of frames for room `roomId`, in arrival order:
      no entry is ever removed, and the room's key is the only one that can be added. */
  function DispatchAll(cache: map<QueryKey, MessagesResponse>, roomId: string, events: seq<Event>)
    : (r: map<QueryKey, MessagesResponse>)
    ensures cache.Keys <= r.Keys <= cache.Keys + {MessagesKey(roomId)}
    decreases |events|
  {
    if events == [] then cache else DispatchAll(Dispatch(cache, roomId, events[0]), roomId, events[1..])
  }

  /** `ws.onmessage` for one decoded frame of room `roomId`: the `switch` on the
      event kind, each case handing its updater to `setQueryData`. */
  method OnMessage(client: QueryClient<MessagesResponse>, roomId: string, data: Event)
    modifies client
    ensures client.data == Dispatch(old(client.data), roomId, data)
  {
    match data
    case MessageCreated(id, message) =>
      client.SetQueryData(MessagesKey(roomId),
        (state: Option<MessagesResponse>) => Some(OnCreated(state, id, message)));
    case MessageAnswered(id) =>
      client.SetQueryData(MessagesKey(roomId),
        (state: Option<MessagesResponse>) => OnAnswered(state, id));
    case MessageReactionIncreased(id, count) =>
      client.SetQueryData(MessagesKey(roomId),
        (state: Option<MessagesResponse>) => OnReactionCount(state, id, count));
    case MessageReactionDecreased(id, count) =>
      client.SetQueryData(MessagesKey(roomId),
        (state: Option<MessagesResponse>) => OnReactionCount(state, id, count));
    case Unknown(_) =>
  }
}
