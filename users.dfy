/**
 * src/controllers/userController.js: a signed-in user's own listings page by page, the nickname
 * change, the avatar upload checks, and account deletion with its cascade inside one
 * transaction. The caller's id comes from src/middleware/auth.js and may be missing; binding a
 * missing id makes the query throw.
 */
module Users {
  import opened Wrappers
  import opened Text
  import opened Rows
  import opened Store
  import Products

  const AuthRequired := "인증이 필요합니다."
  const ServerError := "서버 오류가 발생했습니다."
  const NicknameTooShort := "닉네임은 2자 이상이어야 합니다."
  const NicknameTooLong := "닉네임은 20자 이하여야 합니다."
  const NoAvatar := "이미지 파일을 업로드해주세요."
  const BadAvatarType := "jpg, jpeg, png, webp 파일만 업로드 가능합니다."
  const BadAvatarSize := "파일 크기는 0.1MB 이상 5MB 이하여야 합니다."
  const AvatarFailed := "프로필 사진 업로드에 실패했습니다."
  const MissingPassword := "비밀번호를 입력해주세요."
  const UserNotFound := "사용자를 찾을 수 없습니다."
  const WrongPassword := "비밀번호가 올바르지 않습니다."
  const DeleteFailed := "회원 탈퇴 중 오류가 발생했습니다."

  const AvatarTypes := ["image/jpeg", "image/jpg", "image/png", "image/webp"]
  const MiB := 1024 * 1024

  // ---------------------------------------------------------------- getMyProducts

  predicate Owned(p: Product, userId: int) { p.userId == userId }

  /** A row of the listing query: the caller's product, kept by the inner join only while the caller's account row exists. */
  predicate Joined(p: Product, userId: int, users: seq<User>) {
    p.userId == userId && FirstUser(users, p.userId).Some?
  }

  /** `ORDER BY created_at DESC` as an ascending key: newest first. */
  function NegCreated(p: Product): int { -p.createdAt }

  lemma JoinedMember(products: seq<Product>, users: seq<User>, userId: int, x: Product)
    requires x in multiset(Filter(products, p => Joined(p, userId, users)))
    ensures x in products && Joined(x, userId, users)
  {
    var mine := Filter(products, p => Joined(p, userId, users));
    assert x in mine;
    var j :| 0 <= j < |mine| && mine[j] == x;
  }

  /** The caller's products the join keeps, newest first: the rows the listing query pages through. */
  function MyOrdered(products: seq<Product>, users: seq<User>, userId: int): (r: seq<Product>)
    ensures multiset(r) == multiset(Filter(products, p => Joined(p, userId, users)))
    ensures forall i :: 0 <= i < |r| ==> r[i] in products && Joined(r[i], userId, users)
    ensures SortedBy(r, NegCreated)
  {
    var r := SortBy(Filter(products, p => Joined(p, userId, users)), NegCreated);
    forall i | 0 <= i < |r| ensures r[i] in products && Joined(r[i], userId, users) {
      assert r[i] in multiset(r);
      JoinedMember(products, users, userId, r[i]);
    }
    r
  }

  /** `LIMIT ? OFFSET ?` on the caller's products: one page of MyOrdered, still newest first. */
  function MyPage(products: seq<Product>, users: seq<User>, userId: int, page: int, limit: int): (r: seq<Product>)
    requires page >= 1 && limit >= 1
    ensures r == Page(MyOrdered(products, users, userId), PageOffset(page, limit), limit)
    ensures |r| <= limit
    ensures forall i :: 0 <= i < |r| ==> r[i] in products && Joined(r[i], userId, users)
    ensures SortedBy(r, NegCreated)
  {
    var ordered := MyOrdered(products, users, userId);
    var offset := PageOffset(page, limit);
    var r := Page(ordered, offset, limit);
    PageKeeps(ordered, offset, limit, x => x in products && Joined(x, userId, users));
    PageSorted(ordered, offset, limit, NegCreated);
    r
  }

  /**
   * getMyProducts: the page and limit fall back to 1 and 20 as in the public listing; 401 without
   * a truthy id. The count query has no join, so it counts the caller's products whether or not
   * the account row is still there. LIMIT and OFFSET are written into the SQL, so a page or
   * limit below one is a syntax error.
   */
  function MyProducts(products: seq<Product>, users: seq<User>, userId: Option<int>, page: Option<string>, limit: Option<string>)
    : (r: Answer<Products.ProductPage>)
    ensures var p := Products.NumberOr(page, 1); var l := Products.NumberOr(limit, 20);
            && (!TruthyId(userId) ==> r == Fail(401, AuthRequired))
            && (TruthyId(userId) ==>
                  && (p < 1 || l < 1 <==> r.Fail?)
                  && (r.Fail? ==> r == Fail(500, ServerError))
                  && (r.Done? ==>
                        && r.value.page == p && r.value.limit == l
                        && r.value.products == MyPage(products, users, userId.value, p, l)
                        && r.value.total == |Filter(products, x => Owned(x, userId.value))|
                        && r.value.totalPages == CeilDiv(r.value.total, l)))
  {
    var p := Products.NumberOr(page, 1);
    var l := Products.NumberOr(limit, 20);
    if !TruthyId(userId) then Fail(401, AuthRequired)
    else if p < 1 || l < 1 then Fail(500, ServerError)
    else
      var total := |Filter(products, x => Owned(x, userId.value))|;
      Done(Products.ProductPage(MyPage(products, users, userId.value, p, l), p, l, total, CeilDiv(total, l)))
  }

  /** While the account row exists the join drops nothing, so the pages together hold exactly `total` rows. */
  lemma {:induction false} JoinAgreesWithCount(products: seq<Product>, users: seq<User>, userId: int)
    requires FirstUser(users, userId).Some?
    ensures Filter(products, p => Joined(p, userId, users)) == Filter(products, x => Owned(x, userId))
  {
    if products != [] {
      JoinAgreesWithCount(products[1..], users, userId);
    }
  }

  // ---------------------------------------------------------------- updateNickname

  /** The user rows after `UPDATE users SET nickname = ? WHERE id = ?`. */
  function SetNickname(users: seq<User>, userId: int, nickname: string): (r: seq<User>)
    ensures |r| == |users|
    ensures forall i :: 0 <= i < |r| ==> r[i] == (if users[i].id == userId then users[i].(nickname := nickname) else users[i])
  {
    seq(|users|, i requires 0 <= i < |users| => if users[i].id == userId then users[i].(nickname := nickname) else users[i])
  }

  /**
   * updateNickname: the trimmed nickname must be 2 to 20 characters; it is stored trimmed and
   * the caller's row is read back.
   */
  method UpdateNickname(db: Database, userId: Option<int>, nickname: Option<string>) returns (r: Answer<Option<User>>)
    modifies db`users
    ensures nickname.None? || |Trim(nickname.value)| < 2 ==> r == Fail(400, NicknameTooShort)
    ensures nickname.Some? && |Trim(nickname.value)| > 20 ==> r == Fail(400, NicknameTooLong)
    ensures nickname.Some? && 2 <= |Trim(nickname.value)| <= 20 ==>
              && (userId.None? ==> r == Fail(500, ServerError))
              && (userId.Some? ==>
                    && db.users == SetNickname(old(db.users), userId.value, Trim(nickname.value))
                    && r == Done(FirstUser(db.users, userId.value)))
    ensures r.Done? && r.value.Some? ==> 2 <= |r.value.value.nickname| <= 20 && r.value.value.nickname == Trim(nickname.value)
    ensures r.Fail? ==> unchanged(db)
  {
    if nickname.None? || |Trim(nickname.value)| < 2 {
      return Fail(400, NicknameTooShort);
    }
    if |Trim(nickname.value)| > 20 {
      return Fail(400, NicknameTooLong);
    }
    if userId.None? {
      return Fail(500, ServerError);
    }
    db.users := SetNickname(db.users, userId.value, Trim(nickname.value));
    r := Done(FirstUser(db.users, userId.value));
  }

  // ---------------------------------------------------------------- uploadAvatar

  datatype AvatarFile = AvatarFile(filename: string, mimetype: string, size: nat)

  /**
   * The checks of uploadAvatar: a file must be there, with one of four exact mimetypes, and its
   * size in MiB between 0.1 and 5 inclusive; the avatar's address is under /uploads/.
   */
  function AvatarUrl(file: Option<AvatarFile>): (r: Answer<string>)
    ensures file.None? ==> r == Fail(400, NoAvatar)
    ensures file.Some? && file.value.mimetype !in AvatarTypes ==> r == Fail(400, BadAvatarType)
    ensures file.Some? && file.value.mimetype in AvatarTypes ==>
              && (10 * file.value.size < MiB || file.value.size > 5 * MiB ==> r == Fail(400, BadAvatarSize))
              && (MiB <= 10 * file.value.size && file.value.size <= 5 * MiB ==> r == Done("/uploads/" + file.value.filename))
  {
    match file
    case None => Fail(400, NoAvatar)
    case Some(f) =>
      if f.mimetype !in AvatarTypes then Fail(400, BadAvatarType)
      else if 10 * f.size < MiB || f.size > 5 * MiB then Fail(400, BadAvatarSize)
      else Done("/uploads/" + f.filename)
  }

  /** The smallest and the largest accepted sizes. */
  lemma AvatarSizeBounds(filename: string)
    ensures AvatarUrl(Some(AvatarFile(filename, "image/png", 104858))).Done?
    ensures AvatarUrl(Some(AvatarFile(filename, "image/png", 104857))) == Fail(400, BadAvatarSize)
    ensures AvatarUrl(Some(AvatarFile(filename, "image/png", 5 * MiB))).Done?
    ensures AvatarUrl(Some(AvatarFile(filename, "image/png", 5 * MiB + 1))) == Fail(400, BadAvatarSize)
  {
    assert "image/png" == AvatarTypes[2];
  }

  function SetAvatar(users: seq<User>, userId: int, url: string): (r: seq<User>)
    ensures |r| == |users|
    ensures forall i :: 0 <= i < |r| ==> r[i] == (if users[i].id == userId then users[i].(avatarUrl := Some(url)) else users[i])
  {
    seq(|users|, i requires 0 <= i < |users| => if users[i].id == userId then users[i].(avatarUrl := Some(url)) else users[i])
  }

  /** uploadAvatar with the avatar column in place: the checks, then the caller's row takes the new address. */
  method UploadAvatar(db: Database, userId: Option<int>, file: Option<AvatarFile>) returns (r: Answer<string>)
    modifies db`users
    ensures AvatarUrl(file).Fail? ==> r == AvatarUrl(file)
    ensures AvatarUrl(file).Done? && userId.None? ==> r == Fail(500, AvatarFailed)
    ensures AvatarUrl(file).Done? && userId.Some? ==>
              r == AvatarUrl(file) && db.users == SetAvatar(old(db.users), userId.value, r.value)
    ensures r.Fail? ==> unchanged(db)
  {
    r := AvatarUrl(file);
    if r.Fail? {
      return;
    }
    if userId.None? {
      return Fail(500, AvatarFailed);
    }
    db.users := SetAvatar(db.users, userId.value, r.value);
  }

  // ---------------------------------------------------------------- deleteAccount

  predicate OtherEmail(v: VerificationCode, email: string) { v.email != email }
  predicate OtherUserFavorite(f: Favorite, userId: int) { f.userId != userId }
  predicate Uninvolved(c: Conversation, userId: int) { c.buyerId != userId && c.sellerId != userId }
  predicate OtherOwner(p: Product, userId: int) { p.userId != userId }
  predicate OtherUser(u: User, userId: int) { u.id != userId }

  /** A message lies in a conversation where the user is buyer or seller. */
  predicate InUsersConversation(m: Message, conversations: seq<Conversation>, userId: int) {
    exists i :: 0 <= i < |conversations| && conversations[i].id == m.conversationId && !Uninvolved(conversations[i], userId)
  }

  predicate HasEmail(users: seq<User>, email: string) {
    exists i :: 0 <= i < |users| && users[i].email == email
  }

  /**
   * deleteAccount: 400 without a password, 404 for an unknown user, 401 for a wrong password,
   * each before anything is deleted. Then, in one transaction, the codes for the address, the
   * user's favorites, the messages of the user's conversations, those conversations, the user's
   * products and the account row are deleted. If another row still has the address afterwards,
   * or the database fails (`fails`), the transaction is rolled back and nothing changes.
   */
  method DeleteAccount(db: Database, userId: Option<int>, password: Option<string>,
                       compare: (string, string) -> Option<bool>, fails: bool)
    returns (r: Answer<string>)
    modifies db`codes, db`favorites, db`messages, db`conversations, db`products, db`users
    ensures password.None? || password.value == [] ==> r == Fail(400, MissingPassword)
    ensures password.Some? && password.value != [] ==>
              && (userId.None? ==> r == Fail(500, ServerError))
              && (userId.Some? && FirstUser(old(db.users), userId.value).None? ==> r == Fail(404, UserNotFound))
              && (userId.Some? && FirstUser(old(db.users), userId.value).Some? ==>
                    var u := FirstUser(old(db.users), userId.value).value;
                    && (compare(password.value, u.password).None? ==> r == Fail(500, ServerError))
                    && (compare(password.value, u.password) == Some(false) ==> r == Fail(401, WrongPassword))
                    && (compare(password.value, u.password) == Some(true) ==>
                          && ((fails || HasEmail(Filter(old(db.users), x => OtherUser(x, u.id)), u.email)) <==> r == Fail(500, DeleteFailed))
                          && (!fails && !HasEmail(Filter(old(db.users), x => OtherUser(x, u.id)), u.email) ==> r.Done?))
                    && (r.Done? ==>
                          && r.value == u.email
                          && db.codes == Filter(old(db.codes), v => OtherEmail(v, u.email))
                          && db.favorites == Filter(old(db.favorites), f => OtherUserFavorite(f, u.id))
                          && db.messages == Filter(old(db.messages), m => !InUsersConversation(m, old(db.conversations), u.id))
                          && db.conversations == Filter(old(db.conversations), c => Uninvolved(c, u.id))
                          && db.products == Filter(old(db.products), p => OtherOwner(p, u.id))
                          && db.users == Filter(old(db.users), x => OtherUser(x, u.id))))
    ensures r.Fail? ==> unchanged(db)
  {
    if password.None? || password.value == [] {
      return Fail(400, MissingPassword);
    }
    if userId.None? {
      return Fail(500, ServerError);
    }
    var found := FirstUser(db.users, userId.value);
    if found.None? {
      return Fail(404, UserNotFound);
    }
    var u := found.value;
    var accepted := compare(password.value, u.password);
    if accepted.None? {
      // bcrypt.compare throws on a stored value that is not a hash
      return Fail(500, ServerError);
    }
    if !accepted.value {
      return Fail(401, WrongPassword);
    }
    var users := Filter(db.users, x => OtherUser(x, u.id));
    if fails || HasEmail(users, u.email) {
      return Fail(500, DeleteFailed);
    }
    RemoveAccount(db, u);
    r := Done(u.email);
  }

  /** The six deletes of the transaction, in the source's order. */
  method RemoveAccount(db: Database, u: User)
    modifies db`codes, db`favorites, db`messages, db`conversations, db`products, db`users
    ensures db.codes == Filter(old(db.codes), v => OtherEmail(v, u.email))
    ensures db.favorites == Filter(old(db.favorites), f => OtherUserFavorite(f, u.id))
    ensures db.messages == Filter(old(db.messages), m => !InUsersConversation(m, old(db.conversations), u.id))
    ensures db.conversations == Filter(old(db.conversations), c => Uninvolved(c, u.id))
    ensures db.products == Filter(old(db.products), p => OtherOwner(p, u.id))
    ensures db.users == Filter(old(db.users), x => OtherUser(x, u.id))
  {
    var conversations := db.conversations;
    db.codes := Filter(db.codes, v => OtherEmail(v, u.email));
    db.favorites := Filter(db.favorites, f => OtherUserFavorite(f, u.id));
    db.messages := Filter(db.messages, m => !InUsersConversation(m, conversations, u.id));
    db.conversations := Filter(db.conversations, c => Uninvolved(c, u.id));
    db.products := Filter(db.products, p => OtherOwner(p, u.id));
    db.users := Filter(db.users, x => OtherUser(x, u.id));
  }

  /**
   * After a deletion nothing of the account is left: no row, no code for its address, no
   * favorite, product or conversation of its, and no message in such a conversation; the address
   * is free to register again.
   */
  lemma NothingLeftBehind(u: User, codes: seq<VerificationCode>, favorites: seq<Favorite>, messages: seq<Message>,
                          conversations: seq<Conversation>, products: seq<Product>, users: seq<User>)
    requires !HasEmail(Filter(users, x => OtherUser(x, u.id)), u.email)
    ensures var left := Filter(users, x => OtherUser(x, u.id));
            forall i :: 0 <= i < |left| ==> left[i].id != u.id && left[i].email != u.email
    ensures var left := Filter(codes, v => OtherEmail(v, u.email));
            forall i :: 0 <= i < |left| ==> left[i].email != u.email
    ensures var left := Filter(favorites, f => OtherUserFavorite(f, u.id));
            forall i :: 0 <= i < |left| ==> left[i].userId != u.id
    ensures var left := Filter(products, p => OtherOwner(p, u.id));
            forall i :: 0 <= i < |left| ==> left[i].userId != u.id
    ensures var left := Filter(conversations, c => Uninvolved(c, u.id));
            forall i :: 0 <= i < |left| ==> left[i].buyerId != u.id && left[i].sellerId != u.id
    ensures var left := Filter(messages, m => !InUsersConversation(m, conversations, u.id));
            forall i, j :: 0 <= i < |left| && 0 <= j < |conversations| && conversations[j].id == left[i].conversationId
              ==> Uninvolved(conversations[j], u.id)
  {
  }
}
