/**
 * The listing rules of src/controllers/productController.js: the filters, order and pages of
 * getProducts, and the validation and ownership checks of createProduct, updateProduct and
 * deleteProduct over the products table.
 */
module Products {
  import opened Wrappers
  import opened Text
  import opened Rows
  import opened Store

  const ServerError := "서버 오류가 발생했습니다."
  const ProductNotFound := "상품을 찾을 수 없습니다."
  const MissingTitle := "제목을 입력해주세요."
  const MissingPrice := "가격을 입력해주세요."
  const MissingDescription := "설명을 입력해주세요."
  const AuthRequired := "인증이 필요합니다."
  const MissingImage := "이미지는 필수입니다."
  const BadPrice := "올바른 가격을 입력해주세요."
  const PriceTooHigh := "가격은 2,147,483,647원 이하여야 합니다."
  const UnknownSeller := "유효하지 않은 사용자입니다."
  const NoEditRight := "수정 권한이 없습니다."
  const NothingToUpdate := "수정할 내용이 없습니다."
  const NoDeleteRight := "삭제 권한이 없습니다."

  /** The largest value of a MySQL INT column. */
  const MaxInt := 2147483647
  const Categories := ["전자제품", "학용품", "의류", "도서", "스포츠", "뷰티/미용", "식품", "가구/인테리어", "악세서리", "기타"]
  const OtherCategory := "기타"

  // ---------------------------------------------------------------- getProducts

  /** `parseInt(x) || fallback`: NaN and zero give the fallback; an absent parameter is the fallback itself. */
  function NumberOr(x: Option<string>, fallback: int): (n: int)
    ensures x.None? ==> n == fallback
    ensures x.Some? && ParseInt(x.value).Some? && ParseInt(x.value).value != 0 ==> n == ParseInt(x.value).value
    ensures x.Some? && (ParseInt(x.value).None? || ParseInt(x.value) == Some(0)) ==> n == fallback
  {
    if x.None? then fallback
    else match ParseInt(x.value)
      case None => fallback
      case Some(v) => if v == 0 then fallback else v
  }

  /** A page number written out by the client is read back as that number. */
  lemma NumberOrReadsBack(n: int, fallback: int)
    requires n != 0
    ensures NumberOr(Some(DecimalString(n)), fallback) == n
  {
    ParseDecimalString(n);
  }

  datatype ListQuery = ListQuery(
    sort: Option<string>,
    status: Option<string>,
    keyword: Option<string>,
    category: Option<string>,
    page: Option<string>,
    limit: Option<string>)

  /** The category filter applies when the parameter is not blank; it compares the parameter as given. */
  function CategoryFilter(category: Option<string>): (f: Option<string>)
    ensures f.Some? <==> category.Some? && Trim(category.value) != []
    ensures f.Some? ==> f == category
  {
    if category.Some? && Trim(category.value) != [] then category else None
  }

  /** The status filter applies to the two known statuses only. */
  function StatusFilter(status: Option<string>): (f: Option<string>)
    ensures f.Some? <==> status == Some("SELLING") || status == Some("SOLD")
    ensures f.Some? ==> f == status
  {
    if status == Some("SELLING") || status == Some("SOLD") then status else None
  }

  /** A product passes every filter the query turns on; the count query uses this same test. */
  predicate Selected(q: ListQuery, p: Product) {
    && (CategoryFilter(q.category).Some? ==> p.category == q.category.value)
    && (StatusFilter(q.status).Some? ==> p.status == q.status.value)
    && (q.keyword.Some? && q.keyword.value != [] ==> Includes(p.title, q.keyword.value) || Includes(p.description, q.keyword.value))
  }

  datatype SortOrder = PriceAscending | PriceDescending | Newest

  /** `price_asc`, `price_desc`, and anything else (the default `latest` included) newest first. */
  function OrderOf(sort: Option<string>): (o: SortOrder)
    ensures o.PriceAscending? <==> sort == Some("price_asc")
    ensures o.PriceDescending? <==> sort == Some("price_desc")
  {
    if sort == Some("price_asc") then PriceAscending
    else if sort == Some("price_desc") then PriceDescending
    else Newest
  }

  function Price(p: Product): int { p.price }
  function NegPrice(p: Product): int { -p.price }
  function NegCreated(p: Product): int { -p.createdAt }

  /** The key that never decreases along the listing. */
  function KeyOf(o: SortOrder): Product -> int {
    match o
    case PriceAscending => Price
    case PriceDescending => NegPrice
    case Newest => NegCreated
  }

  datatype ProductPage = ProductPage(products: seq<Product>, page: int, limit: int, total: nat, totalPages: nat)

  /** The filter as a row test, shared by the listing and the count. */
  function Selector(q: ListQuery): Product -> bool {
    p => Selected(q, p)
  }

  lemma SelectedMember(products: seq<Product>, q: ListQuery, x: Product)
    requires x in multiset(Filter(products, Selector(q)))
    ensures x in products && Selected(q, x)
  {
    var matching := Filter(products, Selector(q));
    assert x in matching;
    var j :| 0 <= j < |matching| && matching[j] == x;
  }

  /** The products passing the filters, in the requested order: the rows both queries see. */
  function Ordered(products: seq<Product>, q: ListQuery): (r: seq<Product>)
    ensures |r| == |Filter(products, Selector(q))|
    ensures multiset(r) == multiset(Filter(products, Selector(q)))
    ensures SortedBy(r, KeyOf(OrderOf(q.sort)))
    ensures forall i :: 0 <= i < |r| ==> r[i] in products && Selected(q, r[i])
  {
    var r := SortBy(Filter(products, Selector(q)), KeyOf(OrderOf(q.sort)));
    forall i | 0 <= i < |r| ensures r[i] in products && Selected(q, r[i]) {
      assert r[i] in multiset(r);
      SelectedMember(products, q, r[i]);
    }
    r
  }

  /** `LIMIT ? OFFSET ?` on the ordered rows: at most `limit` of them, each passing the filters, still in order. */
  function Listing(products: seq<Product>, q: ListQuery, page: int, limit: int): (r: seq<Product>)
    requires page >= 1 && limit >= 1
    ensures r == Page(Ordered(products, q), PageOffset(page, limit), limit)
    ensures |r| <= limit
    ensures SortedBy(r, KeyOf(OrderOf(q.sort)))
    ensures forall i :: 0 <= i < |r| ==> r[i] in products && Selected(q, r[i])
  {
    var ordered := Ordered(products, q);
    var offset := PageOffset(page, limit);
    var r := Page(ordered, offset, limit);
    PageKeeps(ordered, offset, limit, x => x in products && Selected(q, x));
    PageSorted(ordered, offset, limit, KeyOf(OrderOf(q.sort)));
    r
  }

  /** The listing's page is non-empty exactly for the pages 1..totalPages. */
  lemma ListingCoversPages(products: seq<Product>, q: ListQuery, page: int, limit: int)
    requires page >= 1 && limit >= 1
    ensures Listing(products, q, page, limit) != [] <==> page <= CeilDiv(|Filter(products, Selector(q))|, limit)
  {
    PagesCoverAll(Ordered(products, q), limit, page);
  }

  /**
   * getProducts: the products passing the filters, in the requested order, cut to the page;
   * the total counts every product passing the same filters. A page or limit below one gives a
   * negative OFFSET or LIMIT, which the database refuses.
   */
  function GetProducts(db: Database, q: ListQuery): (r: Answer<ProductPage>)
    reads db`products
    ensures var page := NumberOr(q.page, 1); var limit := NumberOr(q.limit, 20);
            && (r.Fail? <==> page < 1 || limit < 1)
            && (r.Fail? ==> r == Fail(500, ServerError))
            && (r.Done? ==>
                  && r.value.page == page && r.value.limit == limit
                  && r.value.products == Listing(db.products, q, page, limit)
                  && r.value.total == |Filter(db.products, Selector(q))|
                  && r.value.totalPages == CeilDiv(r.value.total, limit))
  {
    var page := NumberOr(q.page, 1);
    var limit := NumberOr(q.limit, 20);
    if page < 1 || limit < 1 then Fail(500, ServerError)
    else
      var total := |Filter(db.products, Selector(q))|;
      Done(ProductPage(Listing(db.products, q, page, limit), page, limit, total, CeilDiv(total, limit)))
  }

  // ---------------------------------------------------------------- createProduct

  /** A body value: absent, a string (all multipart fields), or a number (a JSON body). */
  datatype Value = Missing | Str(s: string) | Num(n: int) {
    predicate Truthy() {
      match this
      case Missing => false
      case Str(s) => s != []
      case Num(n) => n != 0
    }
  }

  predicate IsComma(c: char) { c == ',' }

  /** `String(price)`. */
  function PriceText(price: Value): string
    requires !price.Missing?
  {
    if price.Str? then price.s else DecimalString(price.n)
  }

  /**
   * createProduct's price: the text with every comma removed, trimmed, read by
   * `parseInt(…, 10)`; NaN or a negative number is refused, and so is anything above the INT
   * column's maximum.
   */
  function PriceFromText(text: string): (r: Answer<int>)
    ensures var n := ParseInt10(Trim(Without(text, IsComma)));
            && (r == Fail(400, BadPrice) <==> n.None? || n.value < 0)
            && (r == Fail(400, PriceTooHigh) <==> n.Some? && n.value > MaxInt)
            && (r.Done? <==> n.Some? && 0 <= n.value <= MaxInt)
            && (r.Done? ==> n == Some(r.value))
    ensures r.Fail? ==> r.status == 400
  {
    match ParseInt10(Trim(Without(text, IsComma)))
    case None => Fail(400, BadPrice)
    case Some(n) => if n < 0 then Fail(400, BadPrice) else if n > MaxInt then Fail(400, PriceTooHigh) else Done(n)
  }

  function ParsePrice(price: Value): (r: Answer<int>)
    requires !price.Missing?
  {
    PriceFromText(PriceText(price))
  }

  /** Thousands separators do not change the price: `1,000` is read as `1000`. */
  lemma CommasIgnored(a: string, b: string)
    ensures PriceFromText(a + "," + b) == PriceFromText(a + b)
  {
    CommasDropped(a, b);
    SameDigitsSamePrice(a + "," + b, a + b);
  }

  lemma CommasDropped(a: string, b: string)
    ensures Without(a + "," + b, IsComma) == Without(a + b, IsComma)
  {
    var comma := ",";
    assert Without(comma, IsComma) == [] by {
      assert comma[1..] == [];
    }
    WithoutAppend(a + comma, b, IsComma);
    WithoutAppend(a, comma, IsComma);
    WithoutAppend(a, b, IsComma);
  }

  lemma SameDigitsSamePrice(x: string, y: string)
    requires Without(x, IsComma) == Without(y, IsComma)
    ensures PriceFromText(x) == PriceFromText(y)
  {
  }

  /** Every price the column can hold is read back exactly, from a string or a number. */
  lemma PriceReadsBack(n: int)
    requires 0 <= n <= MaxInt
    ensures ParsePrice(Str(DecimalString(n))) == Done(n)
    ensures ParsePrice(Num(n)) == Done(n)
  {
    var text := DecimalString(n);
    NumberTextPrice(n);
    assert PriceText(Str(text)) == text;
    assert PriceText(Num(n)) == text;
  }

  lemma NumberTextPrice(n: int)
    requires 0 <= n <= MaxInt
    ensures PriceFromText(DecimalString(n)) == Done(n)
  {
    var text := NatString(n);
    assert forall i :: 0 <= i < |text| ==> !IsComma(text[i]);
    assert Without(text, IsComma) == text;
    TrimOfTrimmed(text);
    ParseNatString(n);
    assert DecimalString(n) == text;
    PriceOfNumber(text, n);
  }

  lemma PriceOfNumber(text: string, n: int)
    requires ParseInt10(Trim(Without(text, IsComma))) == Some(n) && 0 <= n <= MaxInt
    ensures PriceFromText(text) == Done(n)
  {
  }

  /** The category as stored: one of the ten known ones as given, otherwise `기타`. */
  function CategoryOrOther(category: Option<string>): (c: string)
    ensures c in Categories
    ensures category.Some? && category.value in Categories ==> c == category.value
    ensures (category.None? || category.value !in Categories) ==> c == OtherCategory
  {
    if category.Some? && category.value in Categories then category.value else OtherCategory
  }

  /** Title and description must be given and not blank. */
  predicate Blank(f: Option<string>) { f.None? || Trim(f.value) == [] }

  /**
   * createProduct's checks, in the order the handler makes them: title, price, description,
   * caller and image, then the price's value, then the seller's account row (a caller without
   * one trips the foreign key). The accepted price is the answer.
   */
  function CreateChecks(users: seq<User>, title: Option<string>, price: Value, description: Option<string>,
                        userId: Option<int>, filename: Option<string>): (r: Answer<int>)
    ensures Blank(title) ==> r == Fail(400, MissingTitle)
    ensures !Blank(title) && !price.Truthy() ==> r == Fail(400, MissingPrice)
    ensures !Blank(title) && price.Truthy() && Blank(description) ==> r == Fail(400, MissingDescription)
    ensures !Blank(title) && price.Truthy() && !Blank(description) ==>
              && (!TruthyId(userId) ==> r == Fail(401, AuthRequired))
              && (TruthyId(userId) && filename.None? ==> r == Fail(400, MissingImage))
              && (TruthyId(userId) && filename.Some? ==>
                    && (ParsePrice(price).Fail? ==> r == ParsePrice(price))
                    && (ParsePrice(price).Done? && FirstUser(users, userId.value).None? ==> r == Fail(400, UnknownSeller))
                    && (ParsePrice(price).Done? && FirstUser(users, userId.value).Some? ==> r == ParsePrice(price)))
    ensures r.Done? ==> !Blank(title) && !Blank(description) && TruthyId(userId) && filename.Some?
                        && FirstUser(users, userId.value).Some? && 0 <= r.value <= MaxInt
  {
    if Blank(title) then Fail(400, MissingTitle)
    else if !price.Truthy() then Fail(400, MissingPrice)
    else if Blank(description) then Fail(400, MissingDescription)
    else if !TruthyId(userId) then Fail(401, AuthRequired)
    else if filename.None? then Fail(400, MissingImage)
    else if ParsePrice(price).Fail? then ParsePrice(price)
    else if FirstUser(users, userId.value).None? then Fail(400, UnknownSeller)
    else ParsePrice(price)
  }

  /**
   * createProduct: when the checks pass, the new listing is stored with trimmed title and
   * description, a known category, status SELLING and no views; otherwise nothing changes.
   */
  method CreateProduct(db: Database, title: Option<string>, price: Value, description: Option<string>,
                       category: Option<string>, userId: Option<int>, filename: Option<string>, now: int)
    returns (r: Answer<Product>)
    modifies db`products, db`nextProductId
    ensures var checks := CreateChecks(old(db.users), title, price, description, userId, filename);
            && (checks.Fail? ==> r == Fail(checks.status, checks.error) && unchanged(db))
            && (checks.Done? ==>
                  && r == Done(Product(old(db.nextProductId), userId.value, Trim(title.value), checks.value,
                                       Trim(description.value), CategoryOrOther(category), Some("/uploads/" + filename.value),
                                       "SELLING", 0, now))
                  && db.products == old(db.products) + [r.value]
                  && db.nextProductId == old(db.nextProductId) + 1)
  {
    var checks := CreateChecks(db.users, title, price, description, userId, filename);
    if checks.Fail? {
      return Fail(checks.status, checks.error);
    }
    var p := Product(db.nextProductId, userId.value, Trim(title.value), checks.value, Trim(description.value),
                     CategoryOrOther(category), Some("/uploads/" + filename.value), "SELLING", 0, now);
    db.products := db.products + [p];
    db.nextProductId := db.nextProductId + 1;
    r := Done(p);
  }

  // ---------------------------------------------------------------- updateProduct

  /** An optional sign followed by at least one decimal digit, and nothing else. */
  predicate SignedDigits(t: string) {
    Unsigned(t) != [] && AllDigits(Unsigned(t))
  }

  /** The text after a leading `-` or `+`, if there is one. */
  function Unsigned(t: string): string {
    if t != [] && (t[0] == '-' || t[0] == '+') then t[1..] else t
  }

  /**
   * `Number(s)` for the texts it reads as integers: blank is zero, otherwise an optional sign
   * and decimal digits, surrounded by white space. Other texts are NaN here.
   */
  function NumberOf(s: string): (n: Option<int>)
    ensures Trim(s) == [] ==> n == Some(0)
    ensures n.Some? <==> Trim(s) == [] || SignedDigits(Trim(s))
  {
    var t := Trim(s);
    if t == [] then Some(0)
    else
      var digits := Unsigned(t);
      var magnitude: int := DigitsValue(digits, 10);
      if digits != [] && AllDigits(digits) then Some(if t[0] == '-' then -magnitude else magnitude)
      else None
  }

  /** `Number` reads back the decimal text of any integer, whatever white space surrounds it. */
  lemma {:induction false} NumberOfPadded(before: string, v: int, after: string)
    requires forall i :: 0 <= i < |before| ==> IsSpace(before[i])
    requires forall i :: 0 <= i < |after| ==> IsSpace(after[i])
    ensures NumberOf(before + DecimalString(v) + after) == Some(v)
  {
    var x := DecimalString(v);
    var digits := NatString(if v < 0 then -v else v);
    assert x == if v < 0 then "-" + digits else digits;
    assert x[|x| - 1] == digits[|digits| - 1];
    TrimPadded(before, x, after);
    NumberOfDecimal(before + x + after, v);
  }

  lemma {:induction false} NumberOfDecimal(s: string, v: int)
    requires Trim(s) == DecimalString(v)
    ensures NumberOf(s) == Some(v)
  {
    var m: nat := if v < 0 then -v else v;
    var digits := NatString(m);
    NatStringValue(m);
    if v < 0 {
      assert Trim(s) == "-" + digits && Trim(s)[1..] == digits;
    } else {
      assert Trim(s) == digits;
    }
  }

  /** A digit run followed by white space or the end: `parseInt` reads exactly the run, in decimal. */
  lemma {:induction false} ParseDigitsThenSpace(digits: string, u: string)
    requires digits != [] && AllDigits(digits) && |digits| <= |u| && digits == u[..|digits|]
    requires |digits| < |u| ==> IsSpace(u[|digits|])
    ensures ParseMagnitude(u, 10) == Some(DigitsValue(digits, 10))
    ensures !(|u| >= 2 && u[0] == '0' && (u[1] == 'x' || u[1] == 'X'))
  {
    if |u| >= 2 && |digits| >= 2 {
      assert IsDigit(u[1]);
    }
    assert forall i :: 0 <= i < |digits| ==> IsRadixDigit(u[i], 10);
    assert DigitRun(u, 10) == |digits|;
    assert u[..|digits|] == digits;
  }

  /** Blank text is NaN to `parseInt`. */
  lemma {:induction false} ParseIntOfBlank(s: string)
    requires Trim(s) == []
    ensures ParseInt(s) == None
  {
    TrimEmptyIffBlank(s);
    assert TrimStart(s) == [];
  }

  /**
   * A signed digit run `t` at the front of `ts`, followed by white space or the end: after the
   * sign, `parseInt` reads exactly the digits of `t`, in decimal.
   */
  lemma {:induction false} SignedRunThenSpace(ts: string, t: string)
    requires t != [] && |t| <= |ts| && t == ts[..|t|] && SignedDigits(t)
    requires forall i :: |t| <= i < |ts| ==> IsSpace(ts[i])
    ensures ParseMagnitude(Unsigned(ts), 10) == Some(DigitsValue(Unsigned(t), 10))
    ensures var u := Unsigned(ts); !(|u| >= 2 && u[0] == '0' && (u[1] == 'x' || u[1] == 'X'))
  {
    var digits, u := Unsigned(t), Unsigned(ts);
    assert ts[0] == t[0];
    var k := |t| - |digits|;
    assert u == ts[k..] && digits == t[k..];
    assert digits == u[..|digits|];
    if |digits| < |u| {
      assert u[|digits|] == ts[|t|];
    }
    ParseDigitsThenSpace(digits, u);
  }

  /** `parseInt` after the white space and the sign: a decimal magnitude, negated after `-`. */
  lemma {:induction false} ParseIntOfMagnitude(s: string, m: nat)
    requires TrimStart(s) != []
    requires ParseMagnitude(Unsigned(TrimStart(s)), 10) == Some(m)
    requires var u := Unsigned(TrimStart(s)); !(|u| >= 2 && u[0] == '0' && (u[1] == 'x' || u[1] == 'X'))
    ensures ParseInt(s) == Signed(TrimStart(s)[0] == '-', Some(m))
  {
  }

  /** `Number` of a signed digit run between white space. */
  lemma {:induction false} NumberOfDigits(s: string)
    requires Trim(s) != [] && SignedDigits(Trim(s))
    ensures NumberOf(s) == Signed(Trim(s)[0] == '-', Some(DigitsValue(Unsigned(Trim(s)), 10)))
  {
  }

  /**
   * For every text the NaN test lets through, `parseInt` reads the value `Number` does, except
   * blank text: `Number` reads it as 0 and `parseInt` as NaN.
   */
  lemma {:induction false} ParseIntAgreesWithNumber(s: string)
    requires NumberOf(s).Some?
    ensures ParseInt(s) == if Trim(s) == [] then None else NumberOf(s)
  {
    var ts, t := TrimStart(s), Trim(s);
    if t == [] {
      ParseIntOfBlank(s);
    } else {
      assert t == TrimEnd(ts);
      SignedRunThenSpace(ts, t);
      ParseIntOfMagnitude(s, DigitsValue(Unsigned(t), 10));
      NumberOfDigits(s);
      assert ts[0] == t[0];
    }
  }

  /** The fields an update sets; `None` leaves the column as it is. */
  datatype Changes = Changes(
    title: Option<string>,
    price: Option<int>,
    description: Option<string>,
    category: Option<string>,
    imageUrl: Option<string>,
    status: Option<string>)
  {
    predicate Empty() {
      title.None? && price.None? && description.None? && category.None? && imageUrl.None? && status.None?
    }
  }

  /**
   * The price of an update: absent leaves it; NaN or negative is refused; otherwise
   * `parseInt(price)` is stored. A blank text passes the NaN test as zero but parses as NaN,
   * which the UPDATE then fails on.
   */
  function UpdatePrice(price: Value): (r: Answer<Option<int>>)
    ensures price.Missing? <==> r == Done(None)
    ensures price.Num? ==>
              r == (if price.n < 0 then Fail(400, BadPrice) else if price.n > MaxInt then Fail(500, ServerError) else Done(Some(price.n)))
    ensures price.Str? ==>
              && (NumberOf(price.s).None? || NumberOf(price.s).value < 0 <==> r == Fail(400, BadPrice))
              && (NumberOf(price.s).Some? && 0 <= NumberOf(price.s).value ==>
                    (r == Fail(500, ServerError) <==> Trim(price.s) == [] || NumberOf(price.s).value > MaxInt))
              && (r.Done? ==> r.value == ParseInt(price.s) && r.value == NumberOf(price.s))
    ensures r.Done? && r.value.Some? ==> 0 <= r.value.value <= MaxInt
  {
    match price
    case Missing => Done(None)
    case Num(n) => if n < 0 then Fail(400, BadPrice) else if n > MaxInt then Fail(500, ServerError) else Done(Some(n))
    case Str(s) =>
      match NumberOf(s)
      case None => Fail(400, BadPrice)
      case Some(v) =>
        ParseIntAgreesWithNumber(s);
        if v < 0 then Fail(400, BadPrice)
        else if ParseInt(s).None? || ParseInt(s).value > MaxInt then Fail(500, ServerError)
        else Done(ParseInt(s))
  }

  /**
   * The updates list of updateProduct: a truthy title or description as given (not trimmed), a
   * valid price, a known category, a new image, a known status; an unknown category or status is
   * dropped without a word, and an empty list is refused.
   */
  function CollectChanges(title: Option<string>, price: Value, description: Option<string>, category: Option<string>,
                          filename: Option<string>, status: Option<string>): (r: Answer<Changes>)
    ensures UpdatePrice(price).Fail? ==> r == Fail(UpdatePrice(price).status, UpdatePrice(price).error)
    ensures UpdatePrice(price).Done? ==>
              var c := Changes(
                if title.Some? && title.value != [] then title else None,
                UpdatePrice(price).value,
                if description.Some? && description.value != [] then description else None,
                if category.Some? && category.value in Categories then category else None,
                if filename.Some? then Some("/uploads/" + filename.value) else None,
                StatusFilter(status));
              (c.Empty() <==> r == Fail(400, NothingToUpdate)) && (!c.Empty() ==> r == Done(c))
  {
    match UpdatePrice(price)
    case Fail(s, e) => Fail(s, e)
    case Done(p) =>
      var c := Changes(
        if title.Some? && title.value != [] then title else None,
        p,
        if description.Some? && description.value != [] then description else None,
        if category.Some? && category.value in Categories then category else None,
        if filename.Some? then Some("/uploads/" + filename.value) else None,
        StatusFilter(status));
      if c.Empty() then Fail(400, NothingToUpdate) else Done(c)
  }

  /** The row after the UPDATE: each supplied column takes its new value, every other column keeps its old one. */
  function Apply(p: Product, c: Changes): (q: Product)
    ensures q.id == p.id && q.userId == p.userId && q.viewCount == p.viewCount && q.createdAt == p.createdAt
    ensures q.title == c.title.GetOr(p.title) && q.price == c.price.GetOr(p.price)
    ensures q.description == c.description.GetOr(p.description) && q.category == c.category.GetOr(p.category)
    ensures q.status == c.status.GetOr(p.status)
    ensures q.imageUrl == (if c.imageUrl.Some? then c.imageUrl else p.imageUrl)
    ensures c.Empty() ==> q == p
  {
    p.(title := c.title.GetOr(p.title), price := c.price.GetOr(p.price), description := c.description.GetOr(p.description),
       category := c.category.GetOr(p.category), imageUrl := if c.imageUrl.Some? then c.imageUrl else p.imageUrl,
       status := c.status.GetOr(p.status))
  }

  /** `UPDATE products SET … WHERE id = ?`: the rows with that id change, every other row stays. */
  function UpdateRows(products: seq<Product>, id: int, c: Changes): (r: seq<Product>)
    ensures |r| == |products|
    ensures forall i :: 0 <= i < |r| ==> r[i] == (if products[i].id == id then Apply(products[i], c) else products[i])
  {
    seq(|products|, i requires 0 <= i < |products| => if products[i].id == id then Apply(products[i], c) else products[i])
  }

  /** updateProduct: unknown listing 404, someone else's 403, then the collected changes are applied. */
  method UpdateProduct(db: Database, id: int, userId: Option<int>, title: Option<string>, price: Value,
                       description: Option<string>, category: Option<string>, filename: Option<string>, status: Option<string>)
    returns (r: Answer<Product>)
    modifies db`products
    ensures db.ProductById(id).None? <==> r == Fail(404, ProductNotFound)
    ensures old(db.ProductById(id)).Some? ==>
              var p := old(db.ProductById(id)).value;
              && (userId != Some(p.userId) <==> r == Fail(403, NoEditRight))
              && (userId == Some(p.userId) ==>
                    var c := CollectChanges(title, price, description, category, filename, status);
                    && (c.Fail? ==> r == Fail(c.status, c.error))
                    && (c.Done? ==> r == Done(Apply(p, c.value)) && db.products == UpdateRows(old(db.products), id, c.value)))
    ensures r.Fail? ==> unchanged(db)
  {
    var found := db.ProductById(id);
    if found.None? {
      return Fail(404, ProductNotFound);
    }
    var p := found.value;
    if userId != Some(p.userId) {
      return Fail(403, NoEditRight);
    }
    var c := CollectChanges(title, price, description, category, filename, status);
    if c.Fail? {
      return Fail(c.status, c.error);
    }
    db.products := UpdateRows(db.products, id, c.value);
    r := Done(Apply(p, c.value));
  }

  /** An update keeps a title that createProduct would refuse: a white-space title is truthy and stored untrimmed. */
  lemma UpdateKeepsBlankTitle(title: string)
    requires title != [] && Trim(title) == []
    ensures CollectChanges(Some(title), Missing, None, None, None, None) == Done(Changes(Some(title), None, None, None, None, None))
    ensures Blank(Some(title))
  {
  }

  // ---------------------------------------------------------------- deleteProduct

  predicate OtherProduct(p: Product, id: int) { p.id != id }

  function OtherProducts(id: int): Product -> bool {
    p => OtherProduct(p, id)
  }

  /** `DELETE FROM products WHERE id = ?`: the other rows stay in table order, each as often as before. */
  function DeleteRows(products: seq<Product>, id: int): (r: seq<Product>)
    ensures forall i :: 0 <= i < |r| ==> r[i] in products && r[i].id != id
    ensures forall i :: 0 <= i < |products| && products[i].id != id ==> products[i] in r
    ensures r == Filter(products, OtherProducts(id))
    ensures forall p :: multiset(r)[p] == if p.id != id then multiset(products)[p] else 0
  {
    FilterMultiset(products, OtherProducts(id));
    Filter(products, OtherProducts(id))
  }

  /** deleteProduct: unknown listing 404, someone else's 403, otherwise the listing is gone. */
  method DeleteProduct(db: Database, id: int, userId: Option<int>) returns (r: Answer<()>)
    modifies db`products
    ensures old(db.ProductById(id)).None? <==> r == Fail(404, ProductNotFound)
    ensures old(db.ProductById(id)).Some? ==> (userId != Some(old(db.ProductById(id)).value.userId) <==> r == Fail(403, NoDeleteRight))
    ensures old(db.ProductById(id)).Some? && userId == Some(old(db.ProductById(id)).value.userId) ==> r == Done(())
    ensures r.Fail? ==> unchanged(db)
    ensures r.Done? ==> db.products == DeleteRows(old(db.products), id)
  {
    var found := db.ProductById(id);
    if found.None? {
      return Fail(404, ProductNotFound);
    }
    if userId != Some(found.value.userId) {
      return Fail(403, NoDeleteRight);
    }
    db.products := DeleteRows(db.products, id);
    r := Done(());
  }
}
