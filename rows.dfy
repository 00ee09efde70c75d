/**
 * What the SQL queries do to a table once its text is set aside: `WHERE` keeps the rows a
 * condition selects in table order, `ORDER BY` sorts them by a key, `LIMIT … OFFSET …` cuts a
 * page, and `Math.ceil(total / limit)` counts pages.
 */
module Rows {
  import opened Wrappers

  /** `WHERE p`: the rows that satisfy `p`, in table order. */
  function Filter<T>(s: seq<T>, p: T -> bool): (r: seq<T>)
    ensures |r| <= |s|
    ensures forall i :: 0 <= i < |r| ==> r[i] in s && p(r[i])
    ensures forall i :: 0 <= i < |s| && p(s[i]) ==> s[i] in r
    ensures (forall i :: 0 <= i < |s| ==> p(s[i])) ==> r == s
  {
    if s == [] then []
    else if p(s[0]) then [s[0]] + Filter(s[1..], p)
    else Filter(s[1..], p)
  }

  /** `WHERE p … LIMIT 1`: the first row that satisfies `p`, if any. */
  function First<T>(s: seq<T>, p: T -> bool): (r: Option<T>)
    ensures r.Some? ==> r.value in s && p(r.value)
    ensures r.None? <==> forall i :: 0 <= i < |s| ==> !p(s[i])
  {
    if s == [] then None else if p(s[0]) then Some(s[0]) else First(s[1..], p)
  }

  /** `WHERE` distributes over the rows of a table split in two: the table order is kept. */
  lemma {:induction false} FilterAppend<T>(s: seq<T>, t: seq<T>, p: T -> bool)
    ensures Filter(s + t, p) == Filter(s, p) + Filter(t, p)
  {
    if s == [] {
      assert s + t == t;
    } else {
      var x, u := s[0], s[1..];
      assert s == [x] + u && s + t == [x] + (u + t);
      FilterAppend(u, t, p);
      FilterCons(x, u, p);
      FilterCons(x, u + t, p);
      Associative(Filter([x], p), Filter(u, p), Filter(t, p));
    }
  }

  /** The first row is filtered on its own, ahead of the rest. */
  lemma FilterCons<T>(x: T, u: seq<T>, p: T -> bool)
    ensures Filter([x] + u, p) == Filter([x], p) + Filter(u, p)
  {
    assert ([x] + u)[0] == x && ([x] + u)[1..] == u;
    assert [x][1..] == [];
  }

  lemma Associative<T>(a: seq<T>, b: seq<T>, c: seq<T>)
    ensures (a + b) + c == a + (b + c)
  {
  }

  /** A single row is kept exactly when `p` selects it. */
  lemma FilterOne<T>(x: T, p: T -> bool)
    ensures Filter([x], p) == if p(x) then [x] else []
  {
    assert [x][1..] == [];
  }

  /** Each selected row appears as often as in the table, and no other row appears. */
  lemma {:induction false} FilterMultiset<T>(s: seq<T>, p: T -> bool)
    ensures forall x :: multiset(Filter(s, p))[x] == if p(x) then multiset(s)[x] else 0
  {
    if s != [] {
      FilterMultiset(s[1..], p);
      assert s == [s[0]] + s[1..];
    }
  }

  /** No row satisfies `p`: the filter is empty. */
  lemma {:induction false} FilterNone<T>(s: seq<T>, p: T -> bool)
    requires forall i :: 0 <= i < |s| ==> !p(s[i])
    ensures Filter(s, p) == []
  {
    if s != [] {
      FilterNone(s[1..], p);
    }
  }

  function Count<T>(s: seq<T>, p: T -> bool): nat
  {
    |Filter(s, p)|
  }

  /** Rows ordered so that `key` never decreases. */
  predicate SortedBy<T>(s: seq<T>, key: T -> int) {
    forall i, j :: 0 <= i < j < |s| ==> key(s[i]) <= key(s[j])
  }

  predicate AllAtLeast<T>(s: seq<T>, lo: int, key: T -> int) {
    forall i :: 0 <= i < |s| ==> lo <= key(s[i])
  }

  /** A lower bound on the keys survives any rearrangement of the rows. */
  lemma {:induction false} AllAtLeastPermuted<T>(s: seq<T>, t: seq<T>, lo: int, key: T -> int)
    requires multiset(t) == multiset(s) && AllAtLeast(s, lo, key)
    ensures AllAtLeast(t, lo, key)
  {
    forall i | 0 <= i < |t| ensures lo <= key(t[i]) {
      assert t[i] in multiset(t);
      assert t[i] in s;
    }
  }

  function InsertBy<T>(x: T, s: seq<T>, key: T -> int): (r: seq<T>)
    requires SortedBy(s, key)
    ensures SortedBy(r, key)
    ensures multiset(r) == multiset(s) + multiset{x}
    ensures |r| == |s| + 1
  {
    if s == [] then [x]
    else if key(x) <= key(s[0]) then [x] + s
    else
      var rest := InsertBy(x, s[1..], key);
      assert s == [s[0]] + s[1..];
      InsertedBehind(s, x, rest, key);
      [s[0]] + rest
  }

  /** Inserting behind the first row keeps the first row in front. */
  lemma InsertedBehind<T>(s: seq<T>, x: T, rest: seq<T>, key: T -> int)
    requires s != [] && SortedBy(s, key) && key(s[0]) < key(x)
    requires SortedBy(rest, key) && multiset(rest) == multiset(s[1..]) + multiset{x}
    ensures SortedBy([s[0]] + rest, key)
  {
    assert AllAtLeast(s[1..] + [x], key(s[0]), key);
    AllAtLeastPermuted(s[1..] + [x], rest, key(s[0]), key);
    ConsSorted(s[0], rest, key);
  }

  lemma ConsSorted<T>(y: T, rest: seq<T>, key: T -> int)
    requires SortedBy(rest, key) && AllAtLeast(rest, key(y), key)
    ensures SortedBy([y] + rest, key)
  {
    var r := [y] + rest;
    forall i, j | 0 <= i < j < |r| ensures key(r[i]) <= key(r[j]) {
      assert r[j] == rest[j - 1];
      if i > 0 {
        assert r[i] == rest[i - 1];
      }
    }
  }

  /** Two arrangements of the same rows: a row of one is a row of the other. */
  lemma PermutedRow<T>(r: seq<T>, s: seq<T>, i: int)
    requires multiset(r) == multiset(s) && 0 <= i < |r|
    ensures exists j :: 0 <= j < |s| && s[j] == r[i]
  {
    assert r[i] in multiset(s);
  }

  /**
   * `ORDER BY key ASC` (a descending order uses the negated key): the same rows, as a multiset,
   * arranged so that the key never decreases. Ties are left in an unspecified order, as SQL does.
   */
  function SortBy<T>(s: seq<T>, key: T -> int): (r: seq<T>)
    ensures SortedBy(r, key)
    ensures multiset(r) == multiset(s)
    ensures |r| == |s|
  {
    if s == [] then []
    else
      assert s == [s[0]] + s[1..];
      InsertBy(s[0], SortBy(s[1..], key), key)
  }

  /** `LIMIT limit OFFSET offset`: at most `limit` rows, starting after the first `offset`. */
  function Page<T>(s: seq<T>, offset: nat, limit: nat): (r: seq<T>)
    ensures |r| <= limit
    ensures offset >= |s| ==> r == []
    ensures offset < |s| ==> |r| == (if offset + limit <= |s| then limit else |s| - offset)
    ensures forall i :: 0 <= i < |r| ==> r[i] == s[offset + i]
  {
    if offset >= |s| then [] else s[offset..if offset + limit <= |s| then offset + limit else |s|]
  }

  /** Every row of a page is a row of the whole, so a property of all rows holds on the page. */
  lemma PageKeeps<T>(s: seq<T>, offset: nat, limit: nat, p: T -> bool)
    requires forall i :: 0 <= i < |s| ==> p(s[i])
    ensures forall i :: 0 <= i < |Page(s, offset, limit)| ==> p(Page(s, offset, limit)[i])
  {
    var r := Page(s, offset, limit);
    forall i | 0 <= i < |r| ensures p(r[i]) {
      assert r[i] == s[offset + i];
    }
  }

  /** A page of sorted rows is still sorted. */
  lemma PageSorted<T>(s: seq<T>, offset: nat, limit: nat, key: T -> int)
    requires SortedBy(s, key)
    ensures SortedBy(Page(s, offset, limit), key)
  {
    var r := Page(s, offset, limit);
    forall i, j | 0 <= i < j < |r| ensures key(r[i]) <= key(r[j]) {
      assert r[i] == s[offset + i] && r[j] == s[offset + j];
    }
  }

  /** `Math.ceil(total / limit)` for a positive limit. */
  function CeilDiv(total: nat, limit: nat): (pages: nat)
    requires limit > 0
    ensures pages * limit >= total
    ensures pages == 0 || (pages - 1) * limit < total
  {
    (total + limit - 1) / limit
  }

  /** The OFFSET of page `page` (counted from 1): the rows of the pages before it. */
  function PageOffset(page: nat, limit: nat): nat
    requires page >= 1
  {
    if page == 1 then 0 else PageOffset(page - 1, limit) + limit
  }

  /** The OFFSET of page `page` is `(page - 1) * limit`. */
  lemma {:induction false} PageOffsetValue(page: nat, limit: nat)
    requires page >= 1
    ensures PageOffset(page, limit) == (page - 1) * limit
  {
    if page > 1 {
      PageOffsetValue(page - 1, limit);
    }
  }

  /** Walking the pages 1..CeilDiv(total, limit) visits every row exactly once. */
  lemma {:induction false} PagesCoverAll<T>(s: seq<T>, limit: nat, page: nat)
    requires limit > 0 && 1 <= page
    ensures page <= CeilDiv(|s|, limit) <==> Page(s, PageOffset(page, limit), limit) != []
  {
    var pages := CeilDiv(|s|, limit);
    PageOffsetValue(page, limit);
    if page <= pages {
      assert (page - 1) * limit <= (pages - 1) * limit by {
        MulMono(page - 1, pages - 1, limit);
      }
    } else {
      assert pages * limit <= (page - 1) * limit by {
        MulMono(pages, page - 1, limit);
      }
    }
  }

  lemma MulMono(a: nat, b: nat, c: nat)
    requires a <= b
    ensures a * c <= b * c
  {
  }
}
