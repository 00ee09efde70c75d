/**
 * The chat conversation service of src/controllers/chatController.js over the conversations
 * and messages tables: resolve-or-create, list, get, list-messages-with-mark-read and send.
 * The same persistence steps back the socket handlers of src/app.js (module Sockets).
 */
module Chat {
  import opened Wrappers
  import opened Text
  import opened Rows
  import opened Store
  import opened Events

  const ProductNotFound := "상품을 찾을 수 없습니다."
  const OwnProduct := "자신의 상품에는 채팅할 수 없습니다."
  const NoAccess := "채팅방에 접근할 수 없습니다."
  const EmptyContent := "메시지 내용을 입력해주세요."
  const LoadListFailed := "채팅방 목록을 불러오는데 실패했습니다."
  const LoadFailed := "채팅방을 불러오는데 실패했습니다."
  const LoadMessagesFailed := "메시지를 불러오는데 실패했습니다."
  const SendFailed := "메시지 전송에 실패했습니다."

  predicate IsParticipant(c: Conversation, user: int) {
    c.buyerId == user || c.sellerId == user
  }

  /** The other participant: the seller for the buyer, the buyer for anyone else. */
  function Counterpart(c: Conversation, user: int): (other: int)
    ensures IsParticipant(c, user) ==> IsParticipant(c, other)
    ensures c.buyerId == user ==> other == c.sellerId
    ensures c.buyerId != user ==> other == c.buyerId
  {
    if c.buyerId == user then c.sellerId else c.buyerId
  }

  /** At most one conversation per (product, buyer, seller), and every id below the counter. */
  predicate ConversationsValid(convs: seq<Conversation>, next: int) {
    && IdsBelow(convs, (c: Conversation) => c.id, next)
    && forall i, j :: 0 <= i < j < |convs| ==>
         !(convs[i].productId == convs[j].productId && convs[i].buyerId == convs[j].buyerId && convs[i].sellerId == convs[j].sellerId)
  }

  /** `SELECT * FROM conversations WHERE id = ? AND (buyer_id = ? OR seller_id = ?)`, first row. */
  function ParticipantConversation(convs: seq<Conversation>, id: int, user: int): (r: Option<Conversation>)
    ensures r.Some? ==> r.value in convs && r.value.id == id && IsParticipant(r.value, user)
    ensures r.None? <==> forall i :: 0 <= i < |convs| ==> !(convs[i].id == id && IsParticipant(convs[i], user))
  {
    if convs == [] then None
    else if convs[0].id == id && IsParticipant(convs[0], user) then Some(convs[0])
    else ParticipantConversation(convs[1..], id, user)
  }

  /** The conversation for (product, buyer, seller), if one exists. */
  function FindByTriple(convs: seq<Conversation>, productId: int, buyer: int, seller: int): (r: Option<Conversation>)
    ensures r.Some? ==> r.value in convs && r.value.productId == productId && r.value.buyerId == buyer && r.value.sellerId == seller
    ensures r.None? <==> forall i :: 0 <= i < |convs| ==>
              !(convs[i].productId == productId && convs[i].buyerId == buyer && convs[i].sellerId == seller)
  {
    if convs == [] then None
    else if convs[0].productId == productId && convs[0].buyerId == buyer && convs[0].sellerId == seller then Some(convs[0])
    else FindByTriple(convs[1..], productId, buyer, seller)
  }

  /** The messages of one conversation in chronological order (`ORDER BY created_at ASC`). */
  function MessagesOf(msgs: seq<Message>, conversationId: int): (r: seq<Message>)
    ensures SortedBy(r, (m: Message) => m.createdAt)
    ensures multiset(r) == multiset(Filter(msgs, (m: Message) => m.conversationId == conversationId))
  {
    SortBy(Filter(msgs, (m: Message) => m.conversationId == conversationId), (m: Message) => m.createdAt)
  }

  /** A message that `reader` has not read yet in the conversation: sent by someone else, unread. */
  predicate UnreadFor(m: Message, conversationId: int, reader: int) {
    m.conversationId == conversationId && m.senderId != reader && !m.isRead
  }

  /**
   * `UPDATE messages SET is_read = TRUE WHERE conversation_id = ? AND sender_id != ? AND is_read = FALSE`:
   * exactly the messages unread for `reader` get their flag set; every other message, and every
   * other field, is left as it was.
   */
  function MarkRead(msgs: seq<Message>, conversationId: int, reader: int): (r: seq<Message>)
    ensures |r| == |msgs|
    ensures forall i :: 0 <= i < |msgs| ==> r[i] == msgs[i].(isRead := msgs[i].isRead || UnreadFor(msgs[i], conversationId, reader))
  {
    seq(|msgs|, i requires 0 <= i < |msgs| =>
      if UnreadFor(msgs[i], conversationId, reader) then msgs[i].(isRead := true) else msgs[i])
  }

  /** The unread count of the conversation list: messages of the conversation from others, unread. */
  function UnreadCount(msgs: seq<Message>, conversationId: int, reader: int): nat {
    Count(msgs, (m: Message) => UnreadFor(m, conversationId, reader))
  }

  /** After marking, nothing is unread for the reader, and marking again changes nothing. */
  lemma MarkReadClears(msgs: seq<Message>, conversationId: int, reader: int)
    ensures UnreadCount(MarkRead(msgs, conversationId, reader), conversationId, reader) == 0
    ensures MarkRead(MarkRead(msgs, conversationId, reader), conversationId, reader) == MarkRead(msgs, conversationId, reader)
  {
    var r := MarkRead(msgs, conversationId, reader);
    FilterNone(r, (m: Message) => UnreadFor(m, conversationId, reader));
  }

  /** Marking never touches another conversation's messages, nor messages the reader sent. */
  lemma MarkReadKeepsOthers(msgs: seq<Message>, conversationId: int, reader: int, i: int)
    requires 0 <= i < |msgs|
    requires msgs[i].conversationId != conversationId || msgs[i].senderId == reader
    ensures MarkRead(msgs, conversationId, reader)[i] == msgs[i]
  {
  }

  /** The most recent message (`ORDER BY created_at DESC LIMIT 1`), if the conversation has any. */
  function LastMessage(msgs: seq<Message>, conversationId: int): (r: Option<Message>)
    ensures r.None? <==> forall i :: 0 <= i < |msgs| ==> msgs[i].conversationId != conversationId
    ensures r.Some? ==> r.value in msgs && r.value.conversationId == conversationId
    ensures r.Some? ==> forall i :: 0 <= i < |msgs| && msgs[i].conversationId == conversationId ==> msgs[i].createdAt <= r.value.createdAt
  {
    if msgs == [] then None
    else
      var rest := LastMessage(msgs[1..], conversationId);
      assert forall i :: 1 <= i < |msgs| ==> msgs[i] == msgs[1..][i - 1];
      if msgs[0].conversationId != conversationId then rest
      else if rest.Some? && rest.value.createdAt >= msgs[0].createdAt then rest
      else Some(msgs[0])
  }

  // ---------------------------------------------------------------- getConversations

  /** One row of the conversation list. */
  datatype ConversationSummary = ConversationSummary(
    conversation: Conversation,
    otherUserId: int,
    lastMessage: Option<Message>,
    unreadCount: nat)

  /** The inner joins with products and both users keep only conversations whose rows all exist. */
  predicate Joined(c: Conversation, users: seq<User>, products: seq<Product>) {
    FirstProduct(products, c.productId).Some? && FirstUser(users, c.buyerId).Some? && FirstUser(users, c.sellerId).Some?
  }

  function Summarize(c: Conversation, user: int, msgs: seq<Message>): ConversationSummary {
    ConversationSummary(c, Counterpart(c, user), LastMessage(msgs, c.id), UnreadCount(msgs, c.id, user))
  }

  /**
   * The rows of getConversations before projection: the user's joined conversations, most
   * recently active first (`WHERE c.buyer_id = ? OR c.seller_id = ? ORDER BY c.updated_at DESC`).
   */
  function MyConversations(convs: seq<Conversation>, users: seq<User>, products: seq<Product>, user: int): (r: seq<Conversation>)
    ensures forall i :: 0 <= i < |r| ==> r[i] in convs && IsParticipant(r[i], user) && Joined(r[i], users, products)
    ensures forall i, j :: 0 <= i < j < |r| ==> r[i].updatedAt >= r[j].updatedAt
    ensures forall k :: 0 <= k < |convs| && IsParticipant(convs[k], user) && Joined(convs[k], users, products) ==> convs[k] in r
    ensures multiset(r) == multiset(Filter(convs, (c: Conversation) => Listed(c, users, products, user)))
  {
    var mine := Filter(convs, (c: Conversation) => Listed(c, users, products, user));
    var ordered := SortBy(mine, RecentFirst);
    MyConversationsMembers(convs, users, products, user, mine, ordered);
    NewestFirst(ordered);
    ordered
  }

  predicate Listed(c: Conversation, users: seq<User>, products: seq<Product>, user: int) {
    IsParticipant(c, user) && Joined(c, users, products)
  }

  lemma MyConversationsMembers(convs: seq<Conversation>, users: seq<User>, products: seq<Product>, user: int,
                               mine: seq<Conversation>, ordered: seq<Conversation>)
    requires mine == Filter(convs, (c: Conversation) => Listed(c, users, products, user))
    requires multiset(ordered) == multiset(mine)
    ensures forall i :: 0 <= i < |ordered| ==> ordered[i] in convs && Listed(ordered[i], users, products, user)
    ensures forall k :: 0 <= k < |convs| && Listed(convs[k], users, products, user) ==> convs[k] in ordered
  {
    SameElements(mine, ordered);
    forall i | 0 <= i < |ordered| ensures ordered[i] in convs && Listed(ordered[i], users, products, user) {
      assert ordered[i] in mine;
      var j :| 0 <= j < |mine| && mine[j] == ordered[i];
      assert mine[j] in convs && Listed(mine[j], users, products, user);
    }
  }

  function RecentFirst(c: Conversation): int { -c.updatedAt }

  lemma NewestFirst(s: seq<Conversation>)
    requires SortedBy(s, RecentFirst)
    ensures forall i, j :: 0 <= i < j < |s| ==> s[i].updatedAt >= s[j].updatedAt
  {
    forall i, j | 0 <= i < j < |s| ensures s[i].updatedAt >= s[j].updatedAt {
      assert RecentFirst(s[i]) <= RecentFirst(s[j]);
    }
  }

  lemma SameElements<T>(a: seq<T>, b: seq<T>)
    requires multiset(a) == multiset(b)
    ensures forall x :: x in a <==> x in b
  {
    forall x ensures x in a <==> x in b {
      assert x in a <==> x in multiset(a);
      assert x in b <==> x in multiset(b);
    }
  }

  /**
   * getConversations: the user's conversations in the order of MyConversations (as buyer or
   * seller, most recently active first), each with its counterpart, last message and unread count.
   */
  function ListConversations(db: Database, user: Option<int>): (r: Answer<seq<ConversationSummary>>)
    reads db
    ensures user.None? <==> r == Fail(500, LoadListFailed)
    ensures user.Some? ==> r.Done?
    ensures r.Done? ==>
              var listed := MyConversations(db.conversations, db.users, db.products, user.value);
              var rows := r.value;
              && |rows| == |listed|
              && forall i :: 0 <= i < |rows| ==>
                   && rows[i].conversation == listed[i]
                   && rows[i].otherUserId == Counterpart(listed[i], user.value)
                   && IsParticipant(listed[i], rows[i].otherUserId)
                   && rows[i].lastMessage == LastMessage(db.messages, listed[i].id)
                   && rows[i].unreadCount == UnreadCount(db.messages, listed[i].id, user.value)
  {
    if user.None? then Fail(500, LoadListFailed)
    else
      var u := user.value;
      var listed := MyConversations(db.conversations, db.users, db.products, u);
      var msgs := db.messages;
      Done(seq(|listed|, i requires 0 <= i < |listed| => Summarize(listed[i], u, msgs)))
  }

  // ---------------------------------------------------------------- getConversation

  /** getConversation: the conversation with its counterpart, for a participant only. */
  datatype ConversationView = ConversationView(conversation: Conversation, product: Product, otherUser: User)

  function GetConversation(db: Database, conversationId: int, user: Option<int>): (r: Answer<ConversationView>)
    reads db
    ensures user.None? ==> r == Fail(500, LoadFailed)
    ensures user.Some? ==>
              (r == Fail(403, NoAccess) <==>
                 forall i :: 0 <= i < |db.conversations| ==>
                   !(db.conversations[i].id == conversationId && IsParticipant(db.conversations[i], user.value)
                     && Joined(db.conversations[i], db.users, db.products)))
    ensures user.Some? ==> r.Done? || r == Fail(403, NoAccess)
    ensures r.Done? ==>
              && r.value.conversation in db.conversations
              && r.value.conversation.id == conversationId
              && IsParticipant(r.value.conversation, user.value)
              && Joined(r.value.conversation, db.users, db.products)
              && r.value.product == FirstProduct(db.products, r.value.conversation.productId).value
              && r.value.otherUser == FirstUser(db.users, Counterpart(r.value.conversation, user.value)).value
  {
    if user.None? then Fail(500, LoadFailed)
    else
      var u := user.value;
      var users, products := db.users, db.products;
      var visible := Filter(db.conversations, (c: Conversation) => c.id == conversationId && IsParticipant(c, u) && Joined(c, users, products));
      if visible == [] then
        assert forall i :: 0 <= i < |db.conversations| ==>
                 !(db.conversations[i].id == conversationId && IsParticipant(db.conversations[i], u) && Joined(db.conversations[i], users, products));
        Fail(403, NoAccess)
      else
        var c := visible[0];
        Done(ConversationView(c, FirstProduct(products, c.productId).value, FirstUser(users, Counterpart(c, u)).value))
  }

  // ---------------------------------------------------------------- getOrCreateConversation

  /** The answer of getOrCreateConversation: the conversation and its messages in order. */
  datatype ConversationDetail = ConversationDetail(conversation: Conversation, messages: seq<Message>)

  /**
   * getOrCreateConversation: 404 for an unknown product, 400 for the product's owner; the
   * existing conversation of (product, requester, owner) with its messages, or else exactly one
   * new conversation with the requester as buyer and the owner as seller and no messages.
   */
  method GetOrCreateConversation(db: Database, productId: int, user: Option<int>, now: int)
    returns (r: Answer<ConversationDetail>)
    requires ConversationsValid(db.conversations, db.nextConversationId)
    modifies db`conversations, db`nextConversationId
    ensures ConversationsValid(db.conversations, db.nextConversationId)
    ensures old(db.ProductById(productId)).None? ==> r == Fail(404, ProductNotFound)
    ensures old(db.ProductById(productId)).Some? && user == Some(old(db.ProductById(productId)).value.userId) ==> r == Fail(400, OwnProduct)
    ensures old(db.ProductById(productId)).Some? && user.None? ==> r == Fail(500, LoadFailed)
    ensures old(db.ProductById(productId)).Some? && user.Some? && user.value != old(db.ProductById(productId)).value.userId ==> r.Done?
    ensures r.Fail? ==> unchanged(db)
    ensures r.Done? ==>
              var owner := old(db.ProductById(productId)).value.userId;
              var c := r.value.conversation;
              && user.Some? && user.value != owner
              && c.productId == productId && c.buyerId == user.value && c.sellerId == owner
              && match old(FindByTriple(db.conversations, productId, user.value, owner))
                 case Some(existing) =>
                   c == existing && r.value.messages == MessagesOf(db.messages, c.id) && unchanged(db)
                 case None =>
                   && db.conversations == old(db.conversations) + [c]
                   && c == Conversation(old(db.nextConversationId), productId, user.value, owner, now, now)
                   && db.nextConversationId == old(db.nextConversationId) + 1
                   && r.value.messages == []
  {
    var product := db.ProductById(productId);
    if product.None? {
      return Fail(404, ProductNotFound);
    }
    var owner := product.value.userId;
    if user == Some(owner) {
      return Fail(400, OwnProduct);
    }
    if user.None? {
      // the lookup binds `undefined`, which the driver rejects
      return Fail(500, LoadFailed);
    }
    var existing := FindByTriple(db.conversations, productId, user.value, owner);
    if existing.Some? {
      return Done(ConversationDetail(existing.value, MessagesOf(db.messages, existing.value.id)));
    }
    var c := Conversation(db.nextConversationId, productId, user.value, owner, now, now);
    db.conversations := db.conversations + [c];
    db.nextConversationId := db.nextConversationId + 1;
    r := Done(ConversationDetail(c, []));
  }

  // ---------------------------------------------------------------- getMessages

  /**
   * getMessages: 403 for a non-participant, with no change; otherwise the conversation's
   * messages in order as they were before, after which exactly the messages unread for the
   * caller are marked read.
   */
  method GetMessages(db: Database, conversationId: int, user: Option<int>) returns (r: Answer<seq<Message>>)
    modifies db`messages
    ensures user.None? ==> r == Fail(500, LoadMessagesFailed) && unchanged(db)
    ensures user.Some? && ParticipantConversation(db.conversations, conversationId, user.value).None? ==>
              r == Fail(403, NoAccess) && unchanged(db)
    ensures user.Some? && ParticipantConversation(db.conversations, conversationId, user.value).Some? ==>
              && r == Done(MessagesOf(old(db.messages), conversationId))
              && db.messages == MarkRead(old(db.messages), conversationId, user.value)
  {
    if user.None? {
      return Fail(500, LoadMessagesFailed);
    }
    if ParticipantConversation(db.conversations, conversationId, user.value).None? {
      return Fail(403, NoAccess);
    }
    r := Done(MessagesOf(db.messages, conversationId));
    db.messages := MarkRead(db.messages, conversationId, user.value);
  }

  // ---------------------------------------------------------------- sendMessage

  /** `UPDATE conversations SET updated_at = CURRENT_TIMESTAMP WHERE id = ?`. */
  function Touch(convs: seq<Conversation>, id: int, now: int): (r: seq<Conversation>)
    ensures |r| == |convs|
    ensures forall i :: 0 <= i < |convs| ==> r[i] == (if convs[i].id == id then convs[i].(updatedAt := now) else convs[i])
  {
    seq(|convs|, i requires 0 <= i < |convs| => if convs[i].id == id then convs[i].(updatedAt := now) else convs[i])
  }

  /** Touching changes no product, buyer or seller, so the one-per-triple rule and the ids survive. */
  lemma TouchKeepsValid(convs: seq<Conversation>, id: int, now: int, next: int)
    requires ConversationsValid(convs, next)
    ensures ConversationsValid(Touch(convs, id, now), next)
  {
    var r := Touch(convs, id, now);
    forall i, j | 0 <= i < j < |r|
      ensures !(r[i].productId == r[j].productId && r[i].buyerId == r[j].buyerId && r[i].sellerId == r[j].sellerId)
    {
      assert r[i].productId == convs[i].productId && r[j].productId == convs[j].productId;
    }
  }

  /**
   * The write shared by the REST and the socket send: insert the message, unread, with the next
   * id, then bump the conversation's activity time.
   */
  method PersistMessage(db: Database, conversationId: int, sender: int, content: string, now: int) returns (m: Message)
    modifies db`messages, db`nextMessageId, db`conversations
    ensures m == Message(old(db.nextMessageId), conversationId, sender, content, false, now)
    ensures db.messages == old(db.messages) + [m]
    ensures db.nextMessageId == old(db.nextMessageId) + 1
    ensures db.conversations == Touch(old(db.conversations), conversationId, now)
  {
    m := Message(db.nextMessageId, conversationId, sender, content, false, now);
    db.messages := db.messages + [m];
    db.nextMessageId := db.nextMessageId + 1;
    db.conversations := Touch(db.conversations, conversationId, now);
  }

  /** The content check both send paths start with: `!content || content.trim().length === 0`. */
  predicate BlankContent(content: Field) {
    !content.Truthy() || (content.Text? && Trim(content.text) == [])
  }

  /**
   * sendMessage: 400 for blank content (checked first), 403 for a non-participant, with no
   * change in either case; otherwise one message with the trimmed content and the caller as
   * sender, the conversation bumped, and the three emissions.
   */
  method SendMessage(db: Database, conversationId: int, user: Option<int>, content: Field, now: int)
    returns (r: Answer<Message>, out: seq<Emission>)
    modifies db`messages, db`nextMessageId, db`conversations
    ensures BlankContent(content) ==> r == Fail(400, EmptyContent)
    ensures r.Fail? ==> unchanged(db) && out == []
    ensures !BlankContent(content) && (!content.Text? || user.None?) ==> r == Fail(500, SendFailed)
    ensures !BlankContent(content) && content.Text? && user.Some? ==>
              (r == Fail(403, NoAccess) <==> ParticipantConversation(old(db.conversations), conversationId, user.value).None?)
              && (ParticipantConversation(old(db.conversations), conversationId, user.value).Some? ==> r.Done?)
    ensures r.Done? ==>
              && content.Text? && user.Some? && ParticipantConversation(old(db.conversations), conversationId, user.value).Some?
              && var c := ParticipantConversation(old(db.conversations), conversationId, user.value).value;
              && r.value == Message(old(db.nextMessageId), conversationId, user.value, Trim(content.text), false, now)
              && db.messages == old(db.messages) + [r.value]
              && db.conversations == Touch(old(db.conversations), conversationId, now)
              && out == MessageEmissions(Some(conversationId), c, r.value)
  {
    out := [];
    if BlankContent(content) {
      return Fail(400, EmptyContent), out;
    }
    if !content.Text? || user.None? {
      // `trim` of a non-string throws; an `undefined` user id is rejected by the driver
      return Fail(500, SendFailed), out;
    }
    var c := ParticipantConversation(db.conversations, conversationId, user.value);
    if c.None? {
      return Fail(403, NoAccess), out;
    }
    var m := PersistMessage(db, conversationId, user.value, Trim(content.text), now);
    out := MessageEmissions(Some(conversationId), c.value, m);
    r := Done(m);
  }

  /** A stored message always comes from one of the conversation's two participants. */
  lemma SentByParticipant(convs: seq<Conversation>, conversationId: int, user: int)
    requires ParticipantConversation(convs, conversationId, user).Some?
    ensures exists i :: 0 <= i < |convs| && convs[i].id == conversationId && IsParticipant(convs[i], user)
  {
    var c := ParticipantConversation(convs, conversationId, user).value;
    var i :| 0 <= i < |convs| && convs[i] == c;
  }
}
