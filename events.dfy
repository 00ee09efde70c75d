/**
 * What the server pushes over socket.io: the rooms a socket can be in, the events and their
 * payloads, and one emission as `(room, event, payload, excluded socket)`.
 */
module Events {
  import opened Wrappers
  import opened Text
  import opened Store

  /** A socket id assigned by socket.io. */
  type SocketId = nat

  /**
   * A room: a user's personal room `user_<id>` or a conversation room `conversation_<id>`.
   * The id is whatever the handler interpolates; `None` stands for `undefined`.
   */
  datatype Room = UserRoom(user: Option<int>) | ConversationRoom(conversation: Option<int>)

  /** The text a template literal makes of an id. */
  function IdText(id: Option<int>): string {
    match id
    case None => "undefined"
    case Some(n) => DecimalString(n)
  }

  /** The room's name as the handlers spell it. */
  function RoomName(room: Room): (name: string)
    ensures room.UserRoom? ==> name == "user_" + IdText(room.user)
    ensures room.ConversationRoom? ==> name == "conversation_" + IdText(room.conversation)
  {
    match room
    case UserRoom(u) => "user_" + IdText(u)
    case ConversationRoom(c) => "conversation_" + IdText(c)
  }

  lemma IdTextInjective(a: Option<int>, b: Option<int>)
    requires IdText(a) == IdText(b)
    ensures a == b
  {
    if a.Some? && b.Some? {
      ParseDecimalString(a.value);
      ParseDecimalString(b.value);
      assert ParseInt10(DecimalString(a.value)) == ParseInt10(DecimalString(b.value));
    } else if a.Some? {
      NumberTextNotUndefined(a.value);
    } else if b.Some? {
      NumberTextNotUndefined(b.value);
    }
  }

  /** A number's text starts with a sign or a digit, never with the `u` of `undefined`. */
  lemma NumberTextNotUndefined(n: int)
    ensures DecimalString(n) != "undefined"
  {
    var t := DecimalString(n);
    if n >= 0 {
      assert IsDigit(t[0]);
    } else {
      assert t[0] == '-';
    }
    assert "undefined"[0] == 'u';
  }

  /** Distinct rooms have distinct names, so delivery by name and delivery by room agree. */
  lemma {:induction false} RoomNameInjective(a: Room, b: Room)
    requires RoomName(a) == RoomName(b)
    ensures a == b
  {
    var n := RoomName(a);
    assert n[0] == (if a.UserRoom? then 'u' else 'c');
    assert n[0] == (if b.UserRoom? then 'u' else 'c');
    if a.UserRoom? {
      assert n[5..] == IdText(a.user) == IdText(b.user);
      IdTextInjective(a.user, b.user);
    } else {
      assert n[13..] == IdText(a.conversation) == IdText(b.conversation);
      IdTextInjective(a.conversation, b.conversation);
    }
  }

  datatype Payload =
    | NewMessage(message: Message)
    | ConversationUpdated(conversationId: Option<int>)
    | MessagesRead(conversationId: Option<int>)
    | UserTyping(conversationId: Option<int>, userId: Option<int>)
    | UserStoppedTyping(conversationId: Option<int>, userId: Option<int>)

  /** The event name each payload is emitted under. */
  function EventName(p: Payload): string {
    match p
    case NewMessage(_) => "new_message"
    case ConversationUpdated(_) => "conversation_updated"
    case MessagesRead(_) => "messages_read"
    case UserTyping(_, _) => "user_typing"
    case UserStoppedTyping(_, _) => "user_stopped_typing"
  }

  /** `io.to(room).emit(...)` (no exclusion) or `socket.to(room).emit(...)` (the sending socket excluded). */
  datatype Emission = Emission(room: Room, payload: Payload, except: Option<SocketId>)

  /**
   * The emissions that follow a stored message: `new_message` to the conversation room, then
   * `conversation_updated` to the buyer's and the seller's personal rooms.
   */
  function MessageEmissions(conversationId: Option<int>, c: Conversation, m: Message): (out: seq<Emission>)
    ensures |out| == 3
    ensures out[0] == Emission(ConversationRoom(conversationId), NewMessage(m), None)
    ensures forall i :: 1 <= i < 3 ==> out[i].payload == ConversationUpdated(conversationId) && out[i].except.None?
    ensures out[1].room == UserRoom(Some(c.buyerId)) && out[2].room == UserRoom(Some(c.sellerId))
  {
    [ Emission(ConversationRoom(conversationId), NewMessage(m), None),
      Emission(UserRoom(Some(c.buyerId)), ConversationUpdated(conversationId), None),
      Emission(UserRoom(Some(c.sellerId)), ConversationUpdated(conversationId), None) ]
  }
}
