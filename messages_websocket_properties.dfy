/** What the reducer of src/hooks/use-messages-web-sockets.tsx guarantees, one event
    at a time, over a sequence of events, and for the room-keyed cache as a whole. */
module MessagesWebSocketProperties {
  import opened Prelude
  import opened RoomMessages
  import opened QueryCache
  import opened MessagesWebSocket

  // ---------------------------------------------------------------- message_created

  /** An absent snapshot is read as an empty one: the event is not dropped, and the
      new snapshot holds the new record alone. */
  lemma CreatedOnAbsentSnapshot(id: string, message: string)
    ensures Reduce(None, MessageCreated(id, message)) ==
      Some(MessagesResponse([Message(id, message, 0, false, None)]))
  {
  }

  /** Creation does not look for an existing id: delivering the same event twice
      leaves two records with that id at the end, and the result differs from
      delivering it once. */
  lemma CreatedTwiceAppendsTwice(state: Option<MessagesResponse>, id: string, message: string)
    ensures var n := |MessagesOf(state)|;
      var once := ReduceAll(state, [MessageCreated(id, message)]);
      var twice := ReduceAll(state, [MessageCreated(id, message), MessageCreated(id, message)]);
      && twice.Some?
      && |twice.value.messages| == n + 2
      && twice.value.messages[..n] == MessagesOf(state)
      && twice.value.messages[n] == twice.value.messages[n + 1] == NewMessage(id, message)
      && !UniqueIds(twice.value.messages)
      && twice != once
  {
    var e := MessageCreated(id, message);
    var n := |MessagesOf(state)|;
    var one := Reduce(state, e);
    assert ReduceAll(state, [e]) == ReduceAll(one, []) == one;
    assert [e, e][1..] == [e];
    assert ReduceAll(state, [e, e]) == ReduceAll(one, [e]) == Reduce(one, e);
    var ms := Reduce(one, e).value.messages;
    assert ms[..n + 1] == one.value.messages;
    assert ms[n] == one.value.messages[n];
    assert ms[n].id == ms[n + 1].id;
    assert |ms| != |one.value.messages|;
  }

  /** Creation keeps ids unique exactly when the new id is not already cached. */
  lemma CreatedKeepsUniqueIdsIff(state: Option<MessagesResponse>, id: string, message: string)
    requires UniqueIds(MessagesOf(state))
    ensures UniqueIds(OnCreated(state, id, message).messages) <==> id !in Ids(MessagesOf(state))
  {
  }

  // ------------------------------------------------------ message_answered and reactions

  /** An update event for a room whose snapshot is absent installs nothing. */
  lemma MutationOnAbsentSnapshot(e: Event)
    requires IsMutation(e)
    ensures Reduce(None, e) == None
  {
  }

  /** An update event whose id matches no cached record returns the messages unchanged. */
  lemma MutationOfAbsentIdIsNoOp(state: Option<MessagesResponse>, e: Event)
    requires IsMutation(e)
    requires e.id !in Ids(MessagesOf(state))
    ensures Reduce(state, e) == state
  {
    if state.Some? {
      var ms := state.value.messages;
      var r := Reduce(state, e).value.messages;
      forall i | 0 <= i < |ms| ensures r[i] == ms[i] {
        assert Ids(ms)[i] == ms[i].id;
      }
      assert r == ms;
    }
  }

  /** Update events never add, remove, reorder or re-identify records, never change a
      text or a room id, and so keep ids unique when they were. */
  lemma MutationKeepsRecords(state: Option<MessagesResponse>, e: Event)
    requires IsMutation(e)
    ensures Reduce(state, e).Some? <==> state.Some?
    ensures var ms, rs := MessagesOf(state), MessagesOf(Reduce(state, e));
      && Ids(rs) == Ids(ms)
      && (forall i :: 0 <= i < |ms| ==> rs[i].text == ms[i].text && rs[i].roomId == ms[i].roomId)
      && (UniqueIds(ms) ==> UniqueIds(rs))
  {
  }

  /** Marking a message answered twice is marking it once. */
  lemma AnsweredIdempotent(state: Option<MessagesResponse>, id: string)
    ensures Reduce(Reduce(state, MessageAnswered(id)), MessageAnswered(id)) ==
      Reduce(state, MessageAnswered(id))
  {
    if state.Some? {
      var once := MarkAnswered(state.value.messages, id);
      var twice := MarkAnswered(once, id);
      assert |twice| == |once|;
      forall i | 0 <= i < |once| ensures twice[i] == once[i] { }
      assert twice == once;
    }
  }

  /** `message_reaction_increased` and `message_reaction_decreased` are handled alike:
      both install the event's count, neither adds nor subtracts. */
  lemma ReactionKindsAgree(state: Option<MessagesResponse>, id: string, count: int)
    ensures Reduce(state, MessageReactionIncreased(id, count)) ==
      Reduce(state, MessageReactionDecreased(id, count))
  {
  }

  /** The reaction events whose payload is an absolute count. */
  predicate IsReactionEvent(e: Event)
  {
    e.MessageReactionIncreased? || e.MessageReactionDecreased?
  }

  /** Counts are absolute, so of two reaction events for the same message, of either
      kind, the second one's count is what remains. */
  lemma ReactionLastWriteWins(state: Option<MessagesResponse>, first: Event, second: Event)
    requires IsReactionEvent(first) && IsReactionEvent(second)
    requires first.id == second.id
    ensures Reduce(Reduce(state, first), second) == Reduce(state, second)
  {
    if state.Some? {
      var ms := state.value.messages;
      var both := Reduce(Reduce(state, first), second).value.messages;
      var last := Reduce(state, second).value.messages;
      assert |both| == |last|;
      forall i | 0 <= i < |ms| ensures both[i] == last[i] { }
      assert both == last;
    }
  }

  /** Reaction counts 3 then 7 for the same message leave 7, not 10. */
  lemma ReactionCountsAreAbsolute(state: Option<MessagesResponse>, id: string, i: nat)
    requires state.Some? && i < |state.value.messages| && state.value.messages[i].id == id
    ensures var r := ReduceAll(state,
        [MessageReactionIncreased(id, 3), MessageReactionIncreased(id, 7)]);
      r.Some? && i < |r.value.messages| && r.value.messages[i].amountOfReactions == 7
  {
    var e1, e2 := MessageReactionIncreased(id, 3), MessageReactionIncreased(id, 7);
    assert [e1, e2][1..] == [e2];
    assert ReduceAll(state, [e1, e2]) == ReduceAll(Reduce(state, e1), [e2]);
    assert ReduceAll(Reduce(state, e1), [e2]) == Reduce(Reduce(state, e1), e2);
  }

  // ---------------------------------------------------------------- sequences of events

  /** Applying events in arrival order can be split at any point. */
  lemma {:induction false} ReduceAllAppend(state: Option<MessagesResponse>, a: seq<Event>, b: seq<Event>)
    ensures ReduceAll(state, a + b) == ReduceAll(ReduceAll(state, a), b)
    decreases |a|
  {
    if a == [] {
      assert a + b == b;
    } else {
      assert (a + b)[0] == a[0];
      assert (a + b)[1..] == a[1..] + b;
      ReduceAllAppend(Reduce(state, a[0]), a[1..], b);
    }
  }

  /** For any sequence of creation events, the snapshot holds the old messages followed
      by one new record per event, in the events' arrival order. */
  lemma {:induction false} CreatedInArrivalOrder(state: Option<MessagesResponse>, events: seq<Event>)
    requires forall k :: 0 <= k < |events| ==> events[k].MessageCreated?
    ensures var n := |MessagesOf(state)|;
      var ms := MessagesOf(ReduceAll(state, events));
      && (events != [] ==> ReduceAll(state, events).Some?)
      && |ms| == n + |events|
      && ms[..n] == MessagesOf(state)
      && forall k :: 0 <= k < |events| ==> ms[n + k] == NewMessage(events[k].id, events[k].message)
    decreases |events|
  {
    if events != [] {
      var e := events[0];
      var next := Reduce(state, e);
      var n := |MessagesOf(state)|;
      CreatedInArrivalOrder(next, events[1..]);
      var ms := MessagesOf(ReduceAll(state, events));
      assert ms == MessagesOf(ReduceAll(next, events[1..]));
      assert ms[..n + 1] == MessagesOf(next);
      assert ms[..n] == ms[..n + 1][..n];
      forall k | 0 <= k < |events| ensures ms[n + k] == NewMessage(events[k].id, events[k].message) {
        if k == 0 {
          assert ms[n] == ms[..n + 1][n];
        } else {
          assert events[1..][k - 1] == events[k];
        }
      }
    }
  }

  /** Any sequence of update events keeps the records' ids, in order, and with them
      the uniqueness of ids. */
  lemma {:induction false} MutationsKeepIds(state: Option<MessagesResponse>, events: seq<Event>)
    requires forall k :: 0 <= k < |events| ==> IsMutation(events[k])
    ensures Ids(MessagesOf(ReduceAll(state, events))) == Ids(MessagesOf(state))
    ensures UniqueIds(MessagesOf(state)) ==> UniqueIds(MessagesOf(ReduceAll(state, events)))
    decreases |events|
  {
    if events != [] {
      MutationKeepsRecords(state, events[0]);
      MutationsKeepIds(Reduce(state, events[0]), events[1..]);
    }
  }

  /** The ids of the creation events of a sequence, in arrival order. */
  function CreatedIds(events: seq<Event>): seq<string>
    decreases |events|
  {
    if events == [] then []
    else AddedIds(events[0]) + CreatedIds(events[1..])
  }

  /** The ids one event adds: its own for a creation, none otherwise. */
  function AddedIds(e: Event): seq<string>
  {
    if e.MessageCreated? then [e.id] else []
  }

  /** One event of any kind appends the ids it adds and keeps the old ids in order. */
  lemma ReduceIds(state: Option<MessagesResponse>, e: Event)
    ensures Ids(MessagesOf(Reduce(state, e))) == Ids(MessagesOf(state)) + AddedIds(e)
  {
    if e.MessageCreated? {
      IdsAppend(MessagesOf(state), [NewMessage(e.id, e.message)]);
      assert Ids([NewMessage(e.id, e.message)]) == [e.id];
    } else if IsMutation(e) {
      MutationKeepsRecords(state, e);
    }
  }

  /** For any mix of events, the cached ids are the old ids, in their old order,
      followed by the ids of the creation events in arrival order: update and unknown
      events never add, drop or reorder a record. */
  lemma {:induction false} ReduceAllIds(state: Option<MessagesResponse>, events: seq<Event>)
    ensures Ids(MessagesOf(ReduceAll(state, events))) == Ids(MessagesOf(state)) + CreatedIds(events)
    decreases |events|
  {
    if events == [] {
      assert CreatedIds(events) == [];
    } else {
      var next, rest := Reduce(state, events[0]), events[1..];
      var before, added := Ids(MessagesOf(state)), AddedIds(events[0]);
      var after := Ids(MessagesOf(ReduceAll(next, rest)));
      assert Ids(MessagesOf(next)) == before + added by {
        ReduceIds(state, events[0]);
      }
      assert after == (before + added) + CreatedIds(rest) by {
        ReduceAllIds(next, rest);
      }
      assert ReduceAll(state, events) == ReduceAll(next, rest);
      assert CreatedIds(events) == added + CreatedIds(rest);
      assert after == before + CreatedIds(events);
    }
  }

  /** The scenario of a freshly opened room: a creation of "m1" with text "hi" followed
      by a reaction count of 1 for it leaves one record with one reaction. */
  lemma CreateThenReactScenario()
    ensures ReduceAll(None, [MessageCreated("m1", "hi"), MessageReactionIncreased("m1", 1)]) ==
      Some(MessagesResponse([Message("m1", "hi", 1, false, None)]))
  {
    var e1, e2 := MessageCreated("m1", "hi"), MessageReactionIncreased("m1", 1);
    CreatedOnAbsentSnapshot("m1", "hi");
    assert [e1, e2][1..] == [e2];
    var s1 := Reduce(None, e1);
    assert ReduceAll(None, [e1, e2]) == ReduceAll(s1, [e2]) == Reduce(s1, e2);
    var ms := Reduce(s1, e2).value.messages;
    assert |ms| == 1 && ms[0] == Message("m1", "hi", 1, false, None);
    assert ms == [Message("m1", "hi", 1, false, None)];
  }

  // ---------------------------------------------------------------- the room-keyed cache

  /** One frame's effect on the room's own entry is the reducer's: an updater that
      yields `undefined` writes nothing, and it yields `undefined` only when the entry
      was already absent. */
  lemma DispatchReduces(cache: map<QueryKey, MessagesResponse>, roomId: string, e: Event)
    ensures GetQueryData(Dispatch(cache, roomId, e), MessagesKey(roomId)) ==
      Reduce(GetQueryData(cache, MessagesKey(roomId)), e)
  {
  }

  /** A sequence of frames for one room changes no other cache entry. */
  lemma {:induction false} DispatchAllTouchesOnlyItsRoom(
    cache: map<QueryKey, MessagesResponse>, roomId: string, events: seq<Event>, k: QueryKey)
    requires k != MessagesKey(roomId)
    ensures GetQueryData(DispatchAll(cache, roomId, events), k) == GetQueryData(cache, k)
    decreases |events|
  {
    if events != [] {
      DispatchAllTouchesOnlyItsRoom(Dispatch(cache, roomId, events[0]), roomId, events[1..], k);
    }
  }

  /** In particular another room's snapshot is untouched by this room's frames. */
  lemma DispatchAllLeavesOtherRooms(
    cache: map<QueryKey, MessagesResponse>, roomId: string, events: seq<Event>, otherRoom: string)
    requires otherRoom != roomId
    ensures GetQueryData(DispatchAll(cache, roomId, events), MessagesKey(otherRoom)) ==
      GetQueryData(cache, MessagesKey(otherRoom))
  {
    MessagesKeyInjective(roomId, otherRoom);
    DispatchAllTouchesOnlyItsRoom(cache, roomId, events, MessagesKey(otherRoom));
  }

  /** Seen through its own key, the cache after a room's frames is the reducer applied
      to those frames' events in arrival order. */
  lemma {:induction false} DispatchAllIsReduceAll(
    cache: map<QueryKey, MessagesResponse>, roomId: string, events: seq<Event>)
    ensures GetQueryData(DispatchAll(cache, roomId, events), MessagesKey(roomId)) ==
      ReduceAll(GetQueryData(cache, MessagesKey(roomId)), events)
    decreases |events|
  {
    if events != [] {
      DispatchReduces(cache, roomId, events[0]);
      DispatchAllIsReduceAll(Dispatch(cache, roomId, events[0]), roomId, events[1..]);
    }
  }

  /** Frames of unknown kinds leave the whole cache as it was. */
  lemma {:induction false} UnknownFramesChangeNothing(
    cache: map<QueryKey, MessagesResponse>, roomId: string, events: seq<Event>)
    requires forall k :: 0 <= k < |events| ==> events[k].Unknown?
    ensures DispatchAll(cache, roomId, events) == cache
    decreases |events|
  {
    if events != [] {
      UnknownFramesChangeNothing(cache, roomId, events[1..]);
    }
  }
}
