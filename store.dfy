/**
 * The MySQL tables the controllers read and write, held in memory: one row datatype per table
 * and one `Database` object whose fields are the tables, each a sequence in insertion order,
 * with the AUTO_INCREMENT counter of each table beside it.
 */
module Store {
  import opened Wrappers
  import Students
  import Rows

  /** The outcome of a request handler: a value sent with status 200/201, or an error status with its message. */
  datatype Answer<+T> = Done(value: T) | Fail(status: int, error: string)

  /**
   * A request field as the handler receives it from the JSON or form body: absent (`undefined`
   * or `null`), a string, or a value of another type that is truthy or falsy.
   */
  datatype Field = Absent | Text(text: string) | NonString(truthy: bool) {
    /** JavaScript truthiness of the value. */
    predicate Truthy() {
      match this
      case Absent => false
      case Text(s) => s != []
      case NonString(t) => t
    }
  }

  /**
   * What the token verifier (verifyToken, not part of this model) gives back: a falsy value, the
   * decoded claims (whose `userId` may be missing), or an exception.
   */
  datatype Decoded = Invalid | Claims(userId: Option<int>) | Throws

  /** A user id as carried by a token or a socket: `undefined` or a number; `0` is falsy. */
  predicate TruthyId(id: Option<int>) { id.Some? && id.value != 0 }

  datatype User = User(
    id: int,
    email: string,
    password: string,
    nickname: string,
    isVerified: bool,
    isAdmin: int,
    student: Option<Students.StudentInfo>,
    avatarUrl: Option<string>,
    createdAt: int)

  datatype VerificationCode = VerificationCode(id: int, email: string, code: string, expiresAt: int)

  datatype Product = Product(
    id: int,
    userId: int,
    title: string,
    price: int,
    description: string,
    category: string,
    imageUrl: Option<string>,
    status: string,
    viewCount: int,
    createdAt: int)

  datatype Favorite = Favorite(userId: int, productId: int, createdAt: int)

  datatype Conversation = Conversation(id: int, productId: int, buyerId: int, sellerId: int, createdAt: int, updatedAt: int)

  datatype Message = Message(id: int, conversationId: int, senderId: int, content: string, isRead: bool, createdAt: int)

  datatype Report = Report(
    id: int,
    reporterId: int,
    reportType: string,
    targetId: int,
    reason: string,
    description: Option<string>,
    status: string,
    reviewedBy: Option<int>,
    reviewedAt: Option<int>,
    createdAt: int)

  /** Every row of `s` has an id below the next AUTO_INCREMENT value. */
  predicate IdsBelow<T>(s: seq<T>, id: T -> int, next: int) {
    forall i :: 0 <= i < |s| ==> id(s[i]) < next
  }

  class Database {
    var users: seq<User>
    var codes: seq<VerificationCode>
    var products: seq<Product>
    var favorites: seq<Favorite>
    var conversations: seq<Conversation>
    var messages: seq<Message>
    var reports: seq<Report>

    var nextUserId: int
    var nextCodeId: int
    var nextProductId: int
    var nextConversationId: int
    var nextMessageId: int
    var nextReportId: int

    /** Empty tables whose AUTO_INCREMENT counters start at 1. */
    constructor ()
      ensures users == [] && codes == [] && products == [] && favorites == []
      ensures conversations == [] && messages == [] && reports == []
      ensures nextUserId == 1 && nextCodeId == 1 && nextProductId == 1
      ensures nextConversationId == 1 && nextMessageId == 1 && nextReportId == 1
    {
      users, codes, products, favorites := [], [], [], [];
      conversations, messages, reports := [], [], [];
      nextUserId, nextCodeId, nextProductId := 1, 1, 1;
      nextConversationId, nextMessageId, nextReportId := 1, 1, 1;
    }

    function UserById(id: int): (r: Option<User>)
      reads this`users
      ensures r.Some? ==> r.value in users && r.value.id == id
      ensures r.None? <==> forall i :: 0 <= i < |users| ==> users[i].id != id
    {
      FirstUser(users, id)
    }

    function ProductById(id: int): (r: Option<Product>)
      reads this`products
      ensures r.Some? ==> r.value in products && r.value.id == id
      ensures r.None? <==> forall i :: 0 <= i < |products| ==> products[i].id != id
    {
      FirstProduct(products, id)
    }
  }

  /** `SELECT … FROM users WHERE id = ?`, first row. */
  function FirstUser(s: seq<User>, id: int): Option<User> {
    Rows.First(s, (u: User) => u.id == id)
  }

  /** `SELECT … FROM products WHERE id = ?`, first row. */
  function FirstProduct(s: seq<Product>, id: int): Option<Product> {
    Rows.First(s, (p: Product) => p.id == id)
  }
}
