/** The first snapshot of a room's message cache: the server's rows for the room,
    translated field by field into cache records (src/http/get-room-messages.ts). */
module RoomMessages {
  import opened Prelude

  /** One record of the cached `messages` array.
      `roomId` is present on records built by the seed translation, which copies the
      row's room identity into every record although the declared response type has
      no such field; records appended for a `message_created` event have none. */
  datatype Message = Message(
    id: string,
    text: string,
    amountOfReactions: int,
    answered: bool,
    roomId: Option<string>)

  /** The cached snapshot of one room: `{ messages: [...] }`. */
  datatype MessagesResponse = MessagesResponse(messages: seq<Message>)

  /** One element of the server's JSON array. On the wire the text is `message`
      and the count is `reaction_count`. */
  datatype MessageRow = MessageRow(
    id: string,
    roomId: string,
    message: string,
    reactionCount: int,
    answered: bool)

  /** The ids of a message sequence, in order. */
  function Ids(ms: seq<Message>): seq<string>
  {
    MapSeq(ms, (m: Message) => m.id)
  }

  /** The ids of two consecutive runs of records are the two runs' ids, in order. */
  lemma IdsAppend(a: seq<Message>, b: seq<Message>)
    ensures Ids(a + b) == Ids(a) + Ids(b)
  {
    MapSeqAppend(a, b, (m: Message) => m.id);
  }

  /** No two records of the sequence share an id. */
  predicate UniqueIds(ms: seq<Message>)
  {
    forall i, j :: 0 <= i < j < |ms| ==> ms[i].id != ms[j].id
  }

  /** The callback given to `data.map`: one server row becomes one cache record. */
  function ToMessage(row: MessageRow): Message
  {
    Message(row.id, row.message, row.reactionCount, row.answered, Some(row.roomId))
  }

  /** Turns the server's rows into the snapshot that seeds the cache: one record per
      row, in the rows' order, with `message` renamed to `text`, `reaction_count` to
      `amountOfReactions`, and the id, the answered flag and the room id carried over. */
  function Translate(data: seq<MessageRow>): (r: MessagesResponse)
    ensures |r.messages| == |data|
    ensures forall i :: 0 <= i < |data| ==>
      && r.messages[i].id == data[i].id
      && r.messages[i].text == data[i].message
      && r.messages[i].amountOfReactions == data[i].reactionCount
      && r.messages[i].answered == data[i].answered
      && r.messages[i].roomId == Some(data[i].roomId)
  {
    MessagesResponse(MapSeq(data, ToMessage))
  }

  /** Reads a seeded record back as the row it came from. */
  function ToRow(m: Message): MessageRow
    requires m.roomId.Some?
  {
    MessageRow(m.id, m.roomId.value, m.text, m.amountOfReactions, m.answered)
  }

  /** The translation loses nothing: reading every record back gives the rows again. */
  lemma TranslateRoundTrip(data: seq<MessageRow>)
    ensures forall i :: 0 <= i < |data| ==> Translate(data).messages[i].roomId.Some?
    ensures seq(|data|, i requires 0 <= i < |data| => ToRow(Translate(data).messages[i])) == data
  {
  }

  /** The seeded snapshot has unique ids exactly when the server's rows do. */
  lemma TranslateUniqueIds(data: seq<MessageRow>)
    ensures UniqueIds(Translate(data).messages) <==>
      forall i, j :: 0 <= i < j < |data| ==> data[i].id != data[j].id
  {
  }
}
