# Live Q&A message cache: a Dafny model

This project models the client side of a live Q&A room. It covers two pieces.

- The **seed translation** turns the server's message rows for a room into the first cached snapshot. That is the `data.map(...)` of `getRoomMessages`.
- The **message-cache reducer** runs inside the WebSocket hook. Each decoded event (`message_created`, `message_answered`, `message_reaction_increased`, `message_reaction_decreased`) becomes an updater function. The hook hands that function to `queryClient.setQueryData` under the key `["messages", roomId]`.

Modules:

- `Prelude`: `Option`, the value or `undefined`. `MapSeq`, which is `Array.prototype.map`.
- `RoomMessages` (`src/http/get-room-messages.ts`): the cache record `Message`, the snapshot `MessagesResponse`, the server row `MessageRow`, and the translation `Translate`.
- `QueryCache`: the part of the query client that the hook uses. The cache is a map from query key to value. `GetQueryData` reads an entry. `QueryClient.SetQueryData` passes the current entry, or `undefined`, to an updater and installs the result. When the updater returns `undefined`, the library writes nothing, and the model does the same.
- `MessagesWebSocket` (`src/hooks/use-messages-web-sockets.tsx`): the event union `Event`, one updater per event kind, the single-event reducer `Reduce` and the fold `ReduceAll` over events in arrival order. It also has the cache-level step `Dispatch`, its fold `DispatchAll`, and `OnMessage`. `OnMessage` is the imperative `ws.onmessage` `switch`, which calls `SetQueryData` on a `QueryClient` object.
- `MessagesWebSocketProperties`: the lemmas about the reducer.

Three behaviours of the code shape the contracts:

- **Creation is not idempotent.** `message_created` appends a record without checking whether its id is already cached. `CreatedTwiceAppendsTwice` proves that a duplicated event leaves two records with the same id. `CreatedKeepsUniqueIdsIff` proves that ids stay unique exactly when the new id is fresh.
- **Only `message_created` survives an absent snapshot.** Before the seed arrives, `message_created` reads the absent snapshot as `[]` and installs a one-record snapshot. The three update events return `undefined` on an absent snapshot, so nothing is installed and the event is lost.
- **Every matching record is updated.** The update events change every record whose id matches, not just the first one.

A record carries `roomId: Option<string>`. The seed translation copies each row's `roomId` into its record, even though the declared response type has no such field. The object spread `{ ...message, ... }` keeps it. A record appended for `message_created` has none.

## Model

| member | source | states |
|---|---|---|
| `Prelude.MapSeq` | src/http/get-room-messages.ts:29 | `.map` gives an array of the same length whose element i is the callback applied to input element i |
| `Prelude.MapSeqAppend` | src/http/get-room-messages.ts:29 | mapping keeps order: mapping a concatenation is concatenating the mapped parts |
| `RoomMessages.IdsAppend` | src/hooks/use-messages-web-sockets.tsx:55-63 | the ids of a record sequence followed by appended records are the old ids followed by the new ones |
| `RoomMessages.Translate` | src/http/get-room-messages.ts:28-36 | one record per server row, same length and order; for each index the record has the row's id, `text` = `message`, `amountOfReactions` = `reaction_count`, the row's answered flag and `roomId` |
| `RoomMessages.TranslateRoundTrip` | src/http/get-room-messages.ts:20-36 | the translation loses no field: reading every record back as a row gives the server's rows again |
| `RoomMessages.TranslateUniqueIds` | src/http/get-room-messages.ts:28-36 | the seeded snapshot has unique ids exactly when the server's rows do |
| `QueryCache.Install` | src/hooks/use-messages-web-sockets.tsx:72-74 | installing an updater's result changes no other key; `undefined` leaves the entry as it was, a value replaces it |
| `QueryCache.QueryClient.SetQueryData` | src/hooks/use-messages-web-sockets.tsx:51-53 | the new cache is the old one with the updater's result for the old entry installed under the key |
| `MessagesWebSocket.MessagesKeyInjective` | src/hooks/use-messages-web-sockets.tsx:52 | distinct rooms have distinct `["messages", roomId]` keys |
| `MessagesWebSocket.OnCreated` | src/hooks/use-messages-web-sockets.tsx:53-65 | the result is the old messages (or none when the snapshot is absent) with exactly one record `{id, text: message, amountOfReactions: 0, answered: false}` appended at the end; the prefix is unchanged |
| `MessagesWebSocket.MarkAnswered` | src/hooks/use-messages-web-sockets.tsx:77-83 | same length and order; every record keeps its id, text, count and room, and is answered iff it already was or its id matches |
| `MessagesWebSocket.SetReactionCount` | src/hooks/use-messages-web-sockets.tsx:98-104 | same length and order; every record whose id matches holds exactly the event's count, every other field and every other record is unchanged |
| `MessagesWebSocket.OnAnswered` | src/hooks/use-messages-web-sockets.tsx:71-85 | `undefined` iff the snapshot is absent; otherwise the snapshot with its messages marked as answered |
| `MessagesWebSocket.OnReactionCount` | src/hooks/use-messages-web-sockets.tsx:92-106 | `undefined` iff the snapshot is absent; otherwise the snapshot with the matching records' counts set |
| `MessagesWebSocket.Reduce` | src/hooks/use-messages-web-sockets.tsx:49-109 | the `switch` on the event kind: a creation always yields a snapshot one record longer; an update event keeps the snapshot absent or present and keeps its length; an unknown kind leaves it as it was (the per-record effects are in `MutationKeepsRecords` and the lemmas below) |
| `MessagesWebSocket.ReduceAll` | src/hooks/use-messages-web-sockets.tsx:46-110 | events applied one per frame in arrival order; the snapshot is absent afterwards iff it was absent before and no creation arrived, and it never holds fewer records (for a mix of kinds, the kept ids and their order are in `ReduceAllIds`; record contents in `CreatedInArrivalOrder` and `MutationsKeepIds`; splitting in `ReduceAllAppend`) |
| `MessagesWebSocket.DispatchAll` | src/hooks/use-messages-web-sockets.tsx:46-110 | the cache after a room's frames in arrival order: no entry is removed and only the room's key can be added (other keys unchanged in `DispatchAllTouchesOnlyItsRoom`, the room's entry in `DispatchAllIsReduceAll`) |
| `MessagesWebSocket.Dispatch` | src/hooks/use-messages-web-sockets.tsx:49-109 | a frame for room R leaves every cache key other than `["messages", R]` unchanged; a kind outside the four literals leaves the whole cache unchanged |
| `MessagesWebSocket.OnMessage` | src/hooks/use-messages-web-sockets.tsx:46-110 | after `ws.onmessage` handles one decoded event, the client's cache is `Dispatch` of the old cache, the room and the event |
| `MessagesWebSocketProperties.CreatedOnAbsentSnapshot` | src/hooks/use-messages-web-sockets.tsx:56 | on an absent snapshot, `message_created` installs a snapshot holding only the new record |
| `MessagesWebSocketProperties.CreatedTwiceAppendsTwice` | src/hooks/use-messages-web-sockets.tsx:55-63 | the same `message_created` twice gives length old+2, the old prefix, two copies of the new record with one id, non-unique ids, and a result different from applying it once |
| `MessagesWebSocketProperties.CreatedKeepsUniqueIdsIff` | src/hooks/use-messages-web-sockets.tsx:55-63 | from a snapshot with unique ids, creation keeps ids unique iff the new id is not already cached |
| `MessagesWebSocketProperties.MutationOnAbsentSnapshot` | src/hooks/use-messages-web-sockets.tsx:72-74 | `message_answered` and both reaction events return `undefined` on an absent snapshot |
| `MessagesWebSocketProperties.MutationOfAbsentIdIsNoOp` | src/hooks/use-messages-web-sockets.tsx:77-104 | an update event whose id matches no record returns a snapshot equal to the input |
| `MessagesWebSocketProperties.MutationKeepsRecords` | src/hooks/use-messages-web-sockets.tsx:77-104 | update events keep presence of the snapshot, the id sequence, every text and room id, and id uniqueness |
| `MessagesWebSocketProperties.AnsweredIdempotent` | src/hooks/use-messages-web-sockets.tsx:77-83 | `message_answered` applied twice equals applied once |
| `MessagesWebSocketProperties.ReactionKindsAgree` | src/hooks/use-messages-web-sockets.tsx:88-106 | `message_reaction_increased` and `message_reaction_decreased` with the same payload give the same snapshot |
| `MessagesWebSocketProperties.ReactionLastWriteWins` | src/hooks/use-messages-web-sockets.tsx:98-104 | two reaction events of either kind for the same id leave the snapshot the second one alone would give |
| `MessagesWebSocketProperties.ReactionCountsAreAbsolute` | src/hooks/use-messages-web-sockets.tsx:100 | counts 3 then 7 for a cached message leave 7, not 10 |
| `MessagesWebSocketProperties.ReduceAllAppend` | src/hooks/use-messages-web-sockets.tsx:46-110 | processing events in arrival order can be split at any point: a + b is a, then b |
| `MessagesWebSocketProperties.CreatedInArrivalOrder` | src/hooks/use-messages-web-sockets.tsx:54-63 | after any sequence of creations, the snapshot is the old messages followed by one new record per event, in arrival order |
| `MessagesWebSocketProperties.MutationsKeepIds` | src/hooks/use-messages-web-sockets.tsx:68-108 | any sequence of update events keeps the id sequence and id uniqueness |
| `MessagesWebSocketProperties.ReduceIds` | src/hooks/use-messages-web-sockets.tsx:49-109 | one event of any kind keeps the old ids in order and appends the new id only for a creation |
| `MessagesWebSocketProperties.ReduceAllIds` | src/hooks/use-messages-web-sockets.tsx:46-110 | for any mix of event kinds, the cached ids are the old ids in their old order followed by the creation events' ids in arrival order; no record is dropped or reordered |
| `MessagesWebSocketProperties.CreateThenReactScenario` | src/hooks/use-messages-web-sockets.tsx:50-108 | creating "m1"/"hi" in an empty room, then a reaction count of 1, leaves exactly `[{m1, hi, 1, false}]` |
| `MessagesWebSocketProperties.DispatchReduces` | src/hooks/use-messages-web-sockets.tsx:49-109 | seen through the room's key, one frame's effect on the cache is the reducer's result |
| `MessagesWebSocketProperties.DispatchAllTouchesOnlyItsRoom` | src/hooks/use-messages-web-sockets.tsx:52 | any sequence of frames for room R leaves every other cache key unchanged |
| `MessagesWebSocketProperties.DispatchAllLeavesOtherRooms` | src/hooks/use-messages-web-sockets.tsx:46-110 | another room's snapshot is untouched by room R's frames |
| `MessagesWebSocketProperties.DispatchAllIsReduceAll` | src/hooks/use-messages-web-sockets.tsx:46-110 | the room's entry after a sequence of frames is the reducer fold of those events, in arrival order, over the old entry |
| `MessagesWebSocketProperties.UnknownFramesChangeNothing` | src/hooks/use-messages-web-sockets.tsx:49-109 | frames whose kind is outside the four literals leave the whole cache unchanged |

## Left out

- Connection lifecycle (src/hooks/use-messages-web-sockets.tsx:36-44, :112-115) is not modelled. That covers opening the WebSocket, the `onopen`/`onclose` logging, `ws.close()` on cleanup, and React re-subscribing when `roomId` changes. It is transport and framework plumbing with no cache logic. Frames arriving after a room switch are therefore not modelled either.
- Decoding is not modelled. `JSON.parse` and the unchecked type assertion (src/hooks/use-messages-web-sockets.tsx:47) do no validation: malformed text throws, and a decoded object is trusted as it is. Events enter the model already decoded, and an unrecognised `kind` is the `Unknown` constructor, whose kind is typed to exclude the four literals.
- The query client's internals are not modelled: observer notification, storage, and garbage collection. The cache is a map from key to value. The one behaviour the model takes from the library is that an updater returning `undefined` leaves the entry unwritten.
- The network request is not modelled: `fetch` and `response.json()` (src/http/get-room-messages.ts:16-26). The translation starts from the decoded rows.
- src/components/message.tsx is not modelled. It renders the UI and flips a local `hasReacted` flag around fire-and-forget network calls, and it never touches the cache.
- `Message.amountOfReactions` and the events' `count` are unbounded integers. The source takes JSON numbers without checking them, so fractional or non-finite values are not modelled.
