/**
 * The view counter of getProduct in src/controllers/productController.js: an in-memory map from
 * a visitor key to the time of the last counted view. A visit is counted when the last counted
 * one is more than an hour old; once the map holds more than 10000 keys, a counted visit also
 * drops every entry older than a day.
 */
module ProductViews {
  import opened Wrappers
  import opened Text
  import opened Store

  /** One hour in milliseconds: views closer together than this are counted once. */
  const Window := 3600000
  /** One day in milliseconds: the age past which entries are dropped. */
  const Day := 86400000
  /** The size above which the map is pruned. */
  const Capacity := 10000
  const ProductNotFound := "상품을 찾을 수 없습니다."

  /** `userId || req.ip || 'anonymous'`. */
  function Visitor(userId: Option<int>, ip: Option<string>): (v: string)
    ensures TruthyId(userId) ==> v == DecimalString(userId.value)
    ensures !TruthyId(userId) && ip.Some? && ip.value != [] ==> v == ip.value
    ensures v != []
  {
    if TruthyId(userId) then DecimalString(userId.value)
    else if ip.Some? && ip.value != [] then ip.value
    else "anonymous"
  }

  /** `view_${id}_${visitor}`. */
  function ViewKey(id: int, userId: Option<int>, ip: Option<string>): string {
    "view_" + DecimalString(id) + "_" + Visitor(userId, ip)
  }

  lemma DecimalStringNoUnderscore(n: int)
    ensures |DecimalString(n)| >= 1 && '_' !in DecimalString(n)
    ensures forall i :: 1 <= i < |DecimalString(n)| ==> IsDigit(DecimalString(n)[i])
  {
    if n < 0 {
      var s := NatString(-n);
      assert DecimalString(n) == "-" + s;
      assert forall i :: 1 <= i < |DecimalString(n)| ==> DecimalString(n)[i] == s[i - 1];
    }
  }

  /** Two texts cut off by a separator that neither holds stay apart whatever follows the separator. */
  lemma SeparatorDelimits(p: string, x: string, y: string, c: char, w1: string, w2: string)
    requires c !in x && c !in y && x != y
    ensures p + x + [c] + w1 != p + y + [c] + w2
  {
    var kx, ky := p + x + [c] + w1, p + y + [c] + w2;
    if |x| == |y| {
      assert kx[|p|..|p| + |x|] == x;
      assert ky[|p|..|p| + |y|] == y;
    } else if |x| < |y| {
      assert kx[|p| + |x|] == c;
      assert ky[|p| + |x|] == y[|x|];
    } else {
      assert ky[|p| + |y|] == c;
      assert kx[|p| + |y|] == x[|y|];
    }
  }

  /** Two signed-in visitors of one product never share a key. */
  lemma KeysSeparateUsers(id: int, u: int, v: int)
    requires u != 0 && v != 0 && u != v
    ensures ViewKey(id, Some(u), None) != ViewKey(id, Some(v), None)
  {
    ParseDecimalString(u);
    ParseDecimalString(v);
    var p := "view_" + DecimalString(id) + "_";
    var x, y := DecimalString(u), DecimalString(v);
    assert (p + x)[|p|..] == x && (p + y)[|p|..] == y;
  }

  /** A visitor's keys for two different products never coincide: the product id ends at the first `_` after `view_`. */
  lemma KeysSeparateProducts(a: int, b: int, userId: Option<int>, ip: Option<string>)
    requires a != b
    ensures ViewKey(a, userId, ip) != ViewKey(b, userId, ip)
  {
    DecimalStringNoUnderscore(a);
    DecimalStringNoUnderscore(b);
    ParseDecimalString(a);
    ParseDecimalString(b);
    SeparatorDelimits("view_", DecimalString(a), DecimalString(b), '_', Visitor(userId, ip), Visitor(userId, ip));
  }

  /** `viewTracking.get(key) || 0`. */
  function LastView(tracking: map<string, int>, key: string): int {
    if key in tracking then tracking[key] else 0
  }

  /** The entries no older than `cutoff`. */
  function Recent(tracking: map<string, int>, cutoff: int): (r: map<string, int>)
    ensures forall k :: k in r <==> k in tracking && tracking[k] >= cutoff
    ensures forall k :: k in r ==> r[k] == tracking[k]
  {
    map k | k in tracking && tracking[k] >= cutoff :: tracking[k]
  }

  /** The map after a counted view: the key set to now, then pruned when it has grown past capacity. */
  function AfterView(tracking: map<string, int>, key: string, now: int): map<string, int> {
    var grown := tracking[key := now];
    if |grown| > Capacity then Recent(grown, now - Day) else grown
  }

  /** A counted view is remembered: the next visit with the same key within the hour is not counted. */
  lemma RepeatWithinWindowNotCounted(tracking: map<string, int>, key: string, now: int, later: int)
    requires later - now <= Window
    ensures key in AfterView(tracking, key, now) && AfterView(tracking, key, now)[key] == now
    ensures !(later - LastView(AfterView(tracking, key, now), key) > Window)
  {
  }

  /** After pruning, no entry older than a day is left, and every younger one is kept. */
  lemma PruneKeepsRecentOnly(tracking: map<string, int>, key: string, now: int)
    requires |tracking[key := now]| > Capacity
    ensures forall k :: k in AfterView(tracking, key, now) ==> AfterView(tracking, key, now)[k] >= now - Day
    ensures forall k :: k in tracking && k != key && tracking[k] >= now - Day ==>
              k in AfterView(tracking, key, now) && AfterView(tracking, key, now)[k] == tracking[k]
  {
  }

  /** `UPDATE products SET view_count = COALESCE(view_count, 0) + 1 WHERE id = ?`. */
  function AddView(products: seq<Product>, id: int): (r: seq<Product>)
    ensures |r| == |products|
    ensures forall i :: 0 <= i < |r| ==> r[i] == (if products[i].id == id then products[i].(viewCount := products[i].viewCount + 1) else products[i])
  {
    seq(|products|, i requires 0 <= i < |products| =>
      if products[i].id == id then products[i].(viewCount := products[i].viewCount + 1) else products[i])
  }

  /** The row getProduct reads after counting a view: the same row, one view more. */
  lemma {:induction false} FirstAfterView(products: seq<Product>, id: int)
    ensures FirstProduct(AddView(products, id), id).Some? <==> FirstProduct(products, id).Some?
    ensures FirstProduct(products, id).Some? ==>
              FirstProduct(AddView(products, id), id).value
              == FirstProduct(products, id).value.(viewCount := FirstProduct(products, id).value.viewCount + 1)
  {
    if products != [] {
      var q := AddView(products, id);
      if products[0].id == id {
        assert q[0] == products[0].(viewCount := products[0].viewCount + 1);
        assert FirstProduct(q, id) == Some(q[0]);
      } else {
        assert q[0] == products[0];
        AddViewTail(products, id);
        FirstAfterView(products[1..], id);
        assert FirstProduct(q, id) == FirstProduct(q[1..], id);
      }
    }
  }

  lemma AddViewTail(products: seq<Product>, id: int)
    requires products != []
    ensures AddView(products, id)[1..] == AddView(products[1..], id)
  {
    var a := AddView(products, id)[1..];
    var b := AddView(products[1..], id);
    forall i | 0 <= i < |a| ensures a[i] == b[i] {
      assert products[1..][i] == products[i + 1];
    }
  }

  class ViewTracker {
    var tracking: map<string, int>

    /** The map starts empty when the server starts. */
    constructor ()
      ensures tracking == map[]
    {
      tracking := map[];
    }

    /** The pruning loop: every entry older than `cutoff` is deleted while the entries are walked. */
    method Prune(cutoff: int)
      modifies this
      ensures tracking == Recent(old(tracking), cutoff)
    {
      ghost var start := tracking;
      var pending := tracking.Keys;
      while pending != {}
        invariant pending <= start.Keys
        invariant tracking == map k | k in start && (k in pending || start[k] >= cutoff) :: start[k]
        decreases |pending|
      {
        var k :| k in pending;
        if tracking[k] < cutoff {
          tracking := tracking - {k};
        }
        pending := pending - {k};
      }
    }

    /**
     * The counting step of getProduct: a visit more than an hour after the last counted one with
     * the same key adds one view to the product's row (a no-op for an unknown id) and records the
     * time, pruning old entries once the map is over capacity; any other visit changes nothing.
     */
    method RecordView(db: Database, id: int, userId: Option<int>, ip: Option<string>, now: int) returns (counted: bool)
      modifies this, db`products
      ensures counted <==> now - LastView(old(tracking), ViewKey(id, userId, ip)) > Window
      ensures counted ==> tracking == AfterView(old(tracking), ViewKey(id, userId, ip), now)
                          && db.products == AddView(old(db.products), id)
      ensures !counted ==> tracking == old(tracking) && db.products == old(db.products)
    {
      var key := ViewKey(id, userId, ip);
      var last := LastView(tracking, key);
      counted := now - last > Window;
      if counted {
        db.products := AddView(db.products, id);
        tracking := tracking[key := now];
        if |tracking| > Capacity {
          Prune(now - Day);
        }
      }
    }
  }

  /**
   * getProduct: the view is counted first, then the product is looked up, so a visit to an
   * unknown id still takes a key. The route does not authenticate, so the key is always made
   * from the caller's address.
   */
  method GetProduct(tracker: ViewTracker, db: Database, id: int, ip: Option<string>, now: int)
    returns (r: Answer<Product>, counted: bool)
    modifies tracker, db`products
    ensures counted <==> now - LastView(old(tracker.tracking), ViewKey(id, None, ip)) > Window
    ensures tracker.tracking == if counted then AfterView(old(tracker.tracking), ViewKey(id, None, ip), now) else old(tracker.tracking)
    ensures db.products == if counted then AddView(old(db.products), id) else old(db.products)
    ensures r.Fail? <==> old(db.ProductById(id)).None?
    ensures r.Fail? ==> r == Fail(404, ProductNotFound) && db.products == old(db.products)
    ensures r.Done? ==> r.value.id == id && r.value in db.products
    ensures r.Done? && counted ==> r.value == old(db.ProductById(id)).value.(viewCount := old(db.ProductById(id)).value.viewCount + 1)
    ensures r.Done? && !counted ==> r.value == old(db.ProductById(id)).value
  {
    counted := tracker.RecordView(db, id, None, ip, now);
    FirstAfterView(old(db.products), id);
    var found := db.ProductById(id);
    if found.None? {
      return Fail(404, ProductNotFound), counted;
    }
    r := Done(found.value);
  }
}
