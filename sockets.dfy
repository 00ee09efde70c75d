/**
 * The socket.io layer of src/app.js: the handshake gate, the `userSockets` map and the rooms of
 * each connected socket, and the event handlers, each one atomic step that may write the chat
 * tables and returns what it emits.
 */
module Sockets {
  import opened Wrappers
  import opened Text
  import opened Store
  import opened Events
  import Chat

  const NoContent := "메시지 내용이 없습니다."
  const AuthFailure := "인증 오류"
  const ConversationMissing := "채팅방을 찾을 수 없습니다."
  const SendFailure := "메시지 전송에 실패했습니다."

  /**
   * The `io.use` gate: a missing or empty token is refused; otherwise the verifier decides, and
   * a falsy result (whose `userId` cannot be read) or an exception refuses the connection. An
   * accepted socket is bound to the claimed user id, which may be `undefined`.
   */
  function Handshake(token: Option<string>, verify: string -> Decoded): (bound: Option<Option<int>>)
    ensures (token.None? || token.value == []) ==> bound.None?
    ensures token.Some? && token.value != [] ==>
              (bound.Some? <==> verify(token.value).Claims?)
              && (bound.Some? ==> bound.value == verify(token.value).userId)
  {
    if token.None? || token.value == [] then None
    else
      match verify(token.value)
      case Claims(u) => Some(u)
      case _ => None
  }

  /** The acknowledgement of send_message. */
  datatype Ack = AckError(error: string) | AckSuccess(message: Message)

  class Registry {
    /** `userSockets`: the latest socket id registered for each user id. */
    var userSockets: map<Option<int>, SocketId>
    /** `socket.userId` of every connected socket. */
    var bound: map<SocketId, Option<int>>
    /** The rooms each connected socket is in. */
    var rooms: map<SocketId, set<Room>>

    /**
     * Every connected socket is in its personal room, and every `userSockets` entry names a
     * connected socket bound to that user.
     */
    predicate Valid()
      reads this
    {
      && bound.Keys == rooms.Keys
      && (forall s :: s in bound ==> UserRoom(bound[s]) in rooms[s])
      && (forall u :: u in userSockets ==> userSockets[u] in bound && bound[userSockets[u]] == u)
    }

    constructor ()
      ensures Valid()
      ensures userSockets == map[] && bound == map[] && rooms == map[]
    {
      userSockets, bound, rooms := map[], map[], map[];
    }

    /**
     * A new socket: refused by the handshake with no entry made, or bound to the claimed id,
     * registered in `userSockets` over any earlier socket of that id, and put in `user_<id>`.
     */
    method Connect(socket: SocketId, token: Option<string>, verify: string -> Decoded) returns (accepted: bool)
      requires Valid() && socket !in bound
      modifies this
      ensures Valid()
      ensures accepted <==> Handshake(token, verify).Some?
      ensures !accepted ==> unchanged(this)
      ensures accepted ==>
                var u := Handshake(token, verify).value;
                && bound == old(bound)[socket := u]
                && rooms == old(rooms)[socket := {UserRoom(u)}]
                && userSockets == old(userSockets)[u := socket]
    {
      var h := Handshake(token, verify);
      if h.None? {
        return false;
      }
      var u := h.value;
      bound := bound[socket := u];
      rooms := rooms[socket := {UserRoom(u)}];
      userSockets := userSockets[u := socket];
      accepted := true;
    }

    /**
     * `disconnect`: the socket leaves every room, and the `userSockets` entry of its user is
     * deleted, even when it names a newer socket of the same user.
     */
    method Disconnect(socket: SocketId)
      requires Valid() && socket in bound
      modifies this
      ensures Valid()
      ensures bound == old(bound) - {socket} && rooms == old(rooms) - {socket}
      ensures userSockets == old(userSockets) - {old(bound[socket])}
    {
      userSockets := userSockets - {bound[socket]};
      bound := bound - {socket};
      rooms := rooms - {socket};
    }

    /** `join_conversation`: the socket is in `conversation_<id>`; nothing else changes. */
    method Join(socket: SocketId, conversationId: Option<int>)
      requires Valid() && socket in bound
      modifies this`rooms
      ensures Valid()
      ensures rooms == old(rooms)[socket := old(rooms[socket]) + {ConversationRoom(conversationId)}]
    {
      rooms := rooms[socket := rooms[socket] + {ConversationRoom(conversationId)}];
    }

    /** `leave_conversation`: the socket is no longer in `conversation_<id>`; its personal room stays. */
    method Leave(socket: SocketId, conversationId: Option<int>)
      requires Valid() && socket in bound
      modifies this`rooms
      ensures Valid()
      ensures rooms == old(rooms)[socket := old(rooms[socket]) - {ConversationRoom(conversationId)}]
    {
      rooms := rooms[socket := rooms[socket] - {ConversationRoom(conversationId)}];
    }

    /** The sockets an emission reaches: those in its room, except the excluded one. */
    function Recipients(e: Emission): (r: set<SocketId>)
      reads this
      ensures forall s :: s in r <==> s in rooms && e.room in rooms[s] && e.except != Some(s)
    {
      set s | s in rooms.Keys && e.room in rooms[s] && e.except != Some(s)
    }

    /** `typing_start` / `typing_stop`: relayed to the conversation room, never back to the sender; nothing is stored. */
    function Typing(socket: SocketId, conversationId: Option<int>, started: bool): (out: seq<Emission>)
      reads this
      requires socket in bound
      ensures |out| == 1 && out[0].room == ConversationRoom(conversationId) && out[0].except == Some(socket)
      ensures out[0].payload == (if started then UserTyping(conversationId, bound[socket])
                                 else UserStoppedTyping(conversationId, bound[socket]))
      ensures socket !in Recipients(out[0])
    {
      var payload := if started then UserTyping(conversationId, bound[socket])
                     else UserStoppedTyping(conversationId, bound[socket]);
      [Emission(ConversationRoom(conversationId), payload, Some(socket))]
    }
  }

  /** Every connected socket of a user receives what is emitted to that user's personal room. */
  lemma PersonalRoomReachesAll(reg: Registry, u: Option<int>, p: Payload, s: SocketId)
    requires reg.Valid() && s in reg.bound && reg.bound[s] == u
    ensures s in reg.Recipients(Emission(UserRoom(u), p, None))
  {
  }

  /** A stored message reaches both participants' connected sockets, whichever rooms they joined. */
  lemma ParticipantsNotified(reg: Registry, cid: Option<int>, c: Conversation, m: Message, s: SocketId)
    requires reg.Valid() && s in reg.bound && (reg.bound[s] == Some(c.buyerId) || reg.bound[s] == Some(c.sellerId))
    ensures exists i :: 1 <= i < 3 && s in reg.Recipients(MessageEmissions(cid, c, m)[i])
  {
    var out := MessageEmissions(cid, c, m);
    if reg.bound[s] == Some(c.buyerId) {
      assert s in reg.Recipients(out[1]);
    } else {
      assert s in reg.Recipients(out[2]);
    }
  }

  /**
   * `send_message`: content and authentication are checked first, then participation; any
   * failure acks an error and writes nothing. Otherwise the trimmed content is stored as a new
   * message from the socket's user, the conversation is bumped, the three emissions follow and
   * the ack carries the message.
   */
  method SendMessage(db: Database, reg: Registry, socket: SocketId, conversationId: Option<int>, content: Field, now: int)
    returns (ack: Ack, out: seq<Emission>)
    requires socket in reg.bound
    modifies db`messages, db`nextMessageId, db`conversations
    ensures content.NonString? ==> ack == AckError(SendFailure)
    ensures content.Absent? || (content.Text? && Trim(content.text) == []) ==> ack == AckError(NoContent)
    ensures content.Text? && Trim(content.text) != [] && !TruthyId(reg.bound[socket]) ==> ack == AckError(AuthFailure)
    ensures content.Text? && Trim(content.text) != [] && TruthyId(reg.bound[socket]) && conversationId.Some? ==>
              (ack == AckError(ConversationMissing) <==>
                 Chat.ParticipantConversation(old(db.conversations), conversationId.value, reg.bound[socket].value).None?)
    ensures content.Text? && Trim(content.text) != [] && TruthyId(reg.bound[socket]) && conversationId.None? ==>
              ack == AckError(SendFailure)
    ensures content.Text? && Trim(content.text) != [] && TruthyId(reg.bound[socket]) && conversationId.Some?
            && Chat.ParticipantConversation(old(db.conversations), conversationId.value, reg.bound[socket].value).Some? ==>
              ack.AckSuccess?
    ensures ack.AckError? ==> unchanged(db) && out == []
    ensures ack.AckSuccess? ==>
              && content.Text? && TruthyId(reg.bound[socket]) && conversationId.Some?
              && Chat.ParticipantConversation(old(db.conversations), conversationId.value, reg.bound[socket].value).Some?
              && var c := Chat.ParticipantConversation(old(db.conversations), conversationId.value, reg.bound[socket].value).value;
              && ack.message == Message(old(db.nextMessageId), conversationId.value, reg.bound[socket].value, Trim(content.text), false, now)
              && db.messages == old(db.messages) + [ack.message]
              && db.conversations == Chat.Touch(old(db.conversations), conversationId.value, now)
              && out == MessageEmissions(conversationId, c, ack.message)
  {
    out := [];
    var user := reg.bound[socket];
    match content {
      case NonString(_) =>
        // logging `content?.substring(0, 50)` throws for a value that is not a string
        return AckError(SendFailure), out;
      case Absent =>
        return AckError(NoContent), out;
      case Text(text) =>
        if Trim(text) == [] {
          return AckError(NoContent), out;
        }
        if !TruthyId(user) {
          return AckError(AuthFailure), out;
        }
        if conversationId.None? {
          // the driver rejects an `undefined` bind parameter
          return AckError(SendFailure), out;
        }
        var c := Chat.ParticipantConversation(db.conversations, conversationId.value, user.value);
        if c.None? {
          return AckError(ConversationMissing), out;
        }
        var m := Chat.PersistMessage(db, conversationId.value, user.value, Trim(text), now);
        out := MessageEmissions(conversationId, c.value, m);
        ack := AckSuccess(m);
    }
  }

  /**
   * `mark_messages_read`: silently nothing without a user id or conversation id, or for a
   * non-participant; otherwise exactly the messages unread for the caller are marked read and
   * `messages_read` goes to the counterpart's personal room only.
   */
  method MarkMessagesRead(db: Database, reg: Registry, socket: SocketId, conversationId: Option<int>)
    returns (out: seq<Emission>)
    requires socket in reg.bound
    modifies db`messages
    ensures !TruthyId(reg.bound[socket]) || !TruthyId(conversationId) ==> unchanged(db) && out == []
    ensures TruthyId(reg.bound[socket]) && TruthyId(conversationId) ==>
              var user := reg.bound[socket].value;
              match Chat.ParticipantConversation(db.conversations, conversationId.value, user)
              case None => unchanged(db) && out == []
              case Some(c) =>
                && db.messages == Chat.MarkRead(old(db.messages), conversationId.value, user)
                && out == [Emission(UserRoom(Some(Chat.Counterpart(c, user))), MessagesRead(conversationId), None)]
  {
    out := [];
    var user := reg.bound[socket];
    if !TruthyId(user) || !TruthyId(conversationId) {
      return;
    }
    var c := Chat.ParticipantConversation(db.conversations, conversationId.value, user.value);
    if c.None? {
      return;
    }
    db.messages := Chat.MarkRead(db.messages, conversationId.value, user.value);
    out := [Emission(UserRoom(Some(Chat.Counterpart(c.value, user.value))), MessagesRead(conversationId), None)];
  }
}
