/**
 * src/controllers/favoriteController.js: the favorites table as a set of (user, product) pairs
 * that a signed-in user toggles, asks about, and lists newest first. All three routes sit behind
 * the authenticate of src/middleware/auth.js, so the caller's id may still be missing.
 */
module Favorites {
  import opened Wrappers
  import opened Rows
  import opened Store

  const AuthRequired := "인증이 필요합니다."
  const ProductNotFound := "상품을 찾을 수 없습니다."
  const Removed := "좋아요가 해제되었습니다."
  const Added := "좋아요가 추가되었습니다."
  const ListFailed := "관심 상품 목록을 불러오는데 실패했습니다."

  /** The (user, product) pairs the table holds. */
  function Pairs(favorites: seq<Favorite>): set<(int, int)> {
    set i | 0 <= i < |favorites| :: (favorites[i].userId, favorites[i].productId)
  }

  predicate OtherPair(f: Favorite, userId: int, productId: int) {
    f.userId != userId || f.productId != productId
  }

  /** `DELETE FROM favorites WHERE user_id = ? AND product_id = ?`. */
  function RemovePair(favorites: seq<Favorite>, userId: int, productId: int): (r: seq<Favorite>)
    ensures Pairs(r) == Pairs(favorites) - {(userId, productId)}
  {
    var r := Filter(favorites, f => OtherPair(f, userId, productId));
    forall x | x in Pairs(favorites) - {(userId, productId)} ensures x in Pairs(r) {
      var i :| 0 <= i < |favorites| && x == (favorites[i].userId, favorites[i].productId);
      assert favorites[i] in r;
      var j :| 0 <= j < |r| && r[j] == favorites[i];
    }
    forall x | x in Pairs(r) ensures x in Pairs(favorites) - {(userId, productId)} {
      var j :| 0 <= j < |r| && x == (r[j].userId, r[j].productId);
      assert r[j] in favorites;
      var i :| 0 <= i < |favorites| && favorites[i] == r[j];
    }
    r
  }

  /** The table after a toggle: a present pair is deleted, an absent one inserted. */
  function Toggled(favorites: seq<Favorite>, userId: int, productId: int, now: int): (r: seq<Favorite>)
    ensures (userId, productId) in Pairs(favorites) ==> Pairs(r) == Pairs(favorites) - {(userId, productId)}
    ensures (userId, productId) !in Pairs(favorites) ==> Pairs(r) == Pairs(favorites) + {(userId, productId)}
  {
    if (userId, productId) in Pairs(favorites) then RemovePair(favorites, userId, productId)
    else
      var r := favorites + [Favorite(userId, productId, now)];
      assert forall i :: 0 <= i < |favorites| ==> r[i] == favorites[i];
      assert r[|favorites|] == Favorite(userId, productId, now);
      r
  }

  /** Toggling twice gives back the pairs the table started with. */
  lemma ToggleTwiceRestores(favorites: seq<Favorite>, userId: int, productId: int, now: int, later: int)
    ensures Pairs(Toggled(Toggled(favorites, userId, productId, now), userId, productId, later)) == Pairs(favorites)
  {
  }

  /** A toggle changes the membership of its own pair and of no other. */
  lemma ToggleKeepsOtherPairs(favorites: seq<Favorite>, userId: int, productId: int, now: int, x: (int, int))
    requires x != (userId, productId)
    ensures x in Pairs(Toggled(favorites, userId, productId, now)) <==> x in Pairs(favorites)
  {
  }

  datatype Toggle = Toggle(isFavorite: bool, message: string)

  /**
   * toggleFavorite: 401 without a truthy user id and 404 for an unknown product, changing
   * nothing; otherwise the pair is flipped and the flag is its new membership.
   */
  method ToggleFavorite(db: Database, userId: Option<int>, productId: int, now: int) returns (r: Answer<Toggle>)
    modifies db`favorites
    ensures !TruthyId(userId) ==> r == Fail(401, AuthRequired)
    ensures TruthyId(userId) && db.ProductById(productId).None? ==> r == Fail(404, ProductNotFound)
    ensures TruthyId(userId) && db.ProductById(productId).Some? ==>
              && r.Done?
              && db.favorites == Toggled(old(db.favorites), userId.value, productId, now)
              && r.value.isFavorite == ((userId.value, productId) in Pairs(db.favorites))
              && r.value.message == (if r.value.isFavorite then Added else Removed)
    ensures r.Fail? ==> unchanged(db)
  {
    if !TruthyId(userId) {
      return Fail(401, AuthRequired);
    }
    if db.ProductById(productId).None? {
      return Fail(404, ProductNotFound);
    }
    var present := (userId.value, productId) in Pairs(db.favorites);
    db.favorites := Toggled(db.favorites, userId.value, productId, now);
    r := Done(if present then Toggle(false, Removed) else Toggle(true, Added));
  }

  /** getFavoriteStatus: false without a truthy user id, otherwise whether the pair is in the table. */
  function FavoriteStatus(favorites: seq<Favorite>, userId: Option<int>, productId: int): (isFavorite: bool)
    ensures isFavorite <==> TruthyId(userId) && exists i :: 0 <= i < |favorites| && favorites[i].userId == userId.value && favorites[i].productId == productId
  {
    TruthyId(userId) && (userId.value, productId) in Pairs(favorites)
  }

  /** The status right after a toggle is the flag the toggle answered with. */
  lemma StatusAfterToggle(favorites: seq<Favorite>, userId: int, productId: int, now: int)
    requires userId != 0
    ensures FavoriteStatus(Toggled(favorites, userId, productId, now), Some(userId), productId)
            == !FavoriteStatus(favorites, Some(userId), productId)
  {
  }

  /** One row of the listing: the product, with the time it was marked (the sort key). */
  datatype FavoriteProduct = FavoriteProduct(favoritedAt: int, product: Product)

  /** A favorite of the caller survives the inner joins: its product and that product's seller exist. */
  predicate Shown(f: Favorite, userId: int, products: seq<Product>, users: seq<User>) {
    && f.userId == userId
    && FirstProduct(products, f.productId).Some?
    && FirstUser(users, FirstProduct(products, f.productId).value.userId).Some?
  }

  function NegFavorited(f: Favorite): int { -f.createdAt }

  /** The caller's favorites that survive the joins, newest favorite first. */
  function ShownFavorites(favorites: seq<Favorite>, products: seq<Product>, users: seq<User>, userId: int): (rows: seq<Favorite>)
    ensures forall i :: 0 <= i < |rows| ==> rows[i] in favorites && Shown(rows[i], userId, products, users)
    ensures forall i :: 0 <= i < |favorites| && Shown(favorites[i], userId, products, users) ==> favorites[i] in rows
    ensures forall i, j :: 0 <= i < j < |rows| ==> rows[i].createdAt >= rows[j].createdAt
    ensures multiset(rows) == multiset(Filter(favorites, f => Shown(f, userId, products, users)))
  {
    var mine := Filter(favorites, f => Shown(f, userId, products, users));
    var rows := SortBy(mine, NegFavorited);
    forall i | 0 <= i < |rows| ensures rows[i] in favorites && Shown(rows[i], userId, products, users) {
      assert rows[i] in multiset(mine);
    }
    forall i | 0 <= i < |favorites| && Shown(favorites[i], userId, products, users) ensures favorites[i] in rows {
      assert favorites[i] in multiset(mine);
    }
    forall i, j | 0 <= i < j < |rows| ensures rows[i].createdAt >= rows[j].createdAt {
      assert NegFavorited(rows[i]) <= NegFavorited(rows[j]);
    }
    rows
  }

  /** One row of the answer: the time the product was marked, and the product's row. */
  function AsListed(f: Favorite, products: seq<Product>): (row: FavoriteProduct)
    requires FirstProduct(products, f.productId).Some?
    ensures row.favoritedAt == f.createdAt && row.product in products && row.product.id == f.productId
  {
    FavoriteProduct(f.createdAt, FirstProduct(products, f.productId).value)
  }

  lemma FavoritePair(favorites: seq<Favorite>, f: Favorite)
    requires f in favorites
    ensures (f.userId, f.productId) in Pairs(favorites)
  {
    var k :| 0 <= k < |favorites| && favorites[k] == f;
  }

  /**
   * getFavoriteProducts: the caller's favorites joined with products and sellers, newest
   * favorite first. Binding a missing user id makes the query throw.
   */
  function FavoriteProducts(favorites: seq<Favorite>, products: seq<Product>, users: seq<User>, userId: Option<int>)
    : (r: Answer<seq<FavoriteProduct>>)
    ensures userId.None? <==> r == Fail(500, ListFailed)
    ensures r.Done? ==>
              var rows := ShownFavorites(favorites, products, users, userId.value);
              && |r.value| == |rows|
              && (forall i :: 0 <= i < |r.value| ==> r.value[i] == AsListed(rows[i], products))
              && (forall i :: 0 <= i < |r.value| ==>
                    r.value[i].product in products && (userId.value, r.value[i].product.id) in Pairs(favorites))
              && (forall i, j :: 0 <= i < j < |r.value| ==> r.value[i].favoritedAt >= r.value[j].favoritedAt)
  {
    if userId.None? then Fail(500, ListFailed)
    else
      var rows := ShownFavorites(favorites, products, users, userId.value);
      var listed := seq(|rows|, i requires 0 <= i < |rows| => AsListed(rows[i], products));
      forall i | 0 <= i < |listed| ensures (userId.value, listed[i].product.id) in Pairs(favorites) {
        FavoritePair(favorites, rows[i]);
      }
      Done(listed)
  }

}
