/** Ordering and paging of post listings: `order_by('pub_date')` and
    Django's `Paginator(..., 10).get_page(number)`. */
module Listing {
  import opened Collections
  import opened Models

  const PerPage := 10

  /** Ascending publication date; posts with equal dates may come in any order. */
  predicate Sorted(s: seq<Post>) {
    forall i, j :: 0 <= i < j < |s| ==> s[i].pubDate <= s[j].pubDate
  }

  /** `p` placed before the first post that is not older than it. */
  function Insert(p: Post, s: seq<Post>): (r: seq<Post>)
    ensures multiset(r) == multiset(s) + multiset{p}
    ensures forall x :: x in r <==> x in s || x == p
    ensures Sorted(s) ==> Sorted(r)
  {
    if s == [] then [p]
    else if p.pubDate <= s[0].pubDate then [p] + s
    else
      var rest := Insert(p, s[1..]);
      assert s == [s[0]] + s[1..];
      InsertAfterHead(s, p, rest);
      [s[0]] + rest
  }

  lemma InsertAfterHead(s: seq<Post>, p: Post, rest: seq<Post>)
    requires s != [] && s[0].pubDate < p.pubDate
    requires forall x :: x in rest ==> x in s[1..] || x == p
    requires Sorted(s[1..]) ==> Sorted(rest)
    ensures Sorted(s) ==> Sorted([s[0]] + rest)
  {
    if Sorted(s) {
      var r := [s[0]] + rest;
      forall i, j | 0 <= i < j < |r| ensures r[i].pubDate <= r[j].pubDate {
        assert r[j] == rest[j - 1];
        if i == 0 {
          assert rest[j - 1] in rest;
        } else {
          assert r[i] == rest[i - 1];
        }
      }
    }
  }

  /** The posts ordered by ascending publication date. Equal dates keep their
      store order, which is one of the orders the database may return. */
  function OrderByDate(s: seq<Post>): (r: seq<Post>)
    ensures Sorted(r)
    ensures multiset(r) == multiset(s)
  {
    if s == [] then []
    else
      assert s == [s[0]] + s[1..];
      Insert(s[0], OrderByDate(s[1..]))
  }

  lemma FilterCons(x: Post, s: seq<Post>, keep: Post -> bool)
    ensures Filter([x] + s, keep) == if keep(x) then [x] + Filter(s, keep) else Filter(s, keep)
  {
    assert ([x] + s)[1..] == s;
  }

  /** Filtering a sorted listing commutes with inserting one more post. */
  lemma {:induction false} FilterInsert(p: Post, s: seq<Post>, keep: Post -> bool)
    requires Sorted(s)
    ensures Filter(Insert(p, s), keep) == if keep(p) then Insert(p, Filter(s, keep)) else Filter(s, keep)
  {
    if s == [] {
      FilterCons(p, [], keep);
    } else if p.pubDate <= s[0].pubDate {
      FilterInsertFront(p, s, keep);
    } else {
      assert Sorted(s[1..]);
      FilterInsert(p, s[1..], keep);
      FilterInsertLater(p, s, keep);
    }
  }

  lemma FilterInsertFront(p: Post, s: seq<Post>, keep: Post -> bool)
    requires Sorted(s) && s != [] && p.pubDate <= s[0].pubDate
    ensures Filter(Insert(p, s), keep) == if keep(p) then Insert(p, Filter(s, keep)) else Filter(s, keep)
  {
    assert Insert(p, s) == [p] + s;
    FilterCons(p, s, keep);
    var f := Filter(s, keep);
    if f != [] {
      assert f[0] in s;
      assert p.pubDate <= f[0].pubDate;
      assert Insert(p, f) == [p] + f;
    }
  }

  lemma FilterInsertLater(p: Post, s: seq<Post>, keep: Post -> bool)
    requires s != [] && s[0].pubDate < p.pubDate
    requires Filter(Insert(p, s[1..]), keep)
      == if keep(p) then Insert(p, Filter(s[1..], keep)) else Filter(s[1..], keep)
    ensures Filter(Insert(p, s), keep) == if keep(p) then Insert(p, Filter(s, keep)) else Filter(s, keep)
  {
    var x, t := s[0], s[1..];
    assert s == [x] + t;
    InsertBehind(p, x, t);
    FilterCons(x, Insert(p, t), keep);
    FilterCons(x, t, keep);
    if keep(x) && keep(p) {
      InsertBehind(p, x, Filter(t, keep));
      calc {
        Filter(Insert(p, s), keep);
        [x] + Filter(Insert(p, t), keep);
        [x] + Insert(p, Filter(t, keep));
        Insert(p, [x] + Filter(t, keep));
        Insert(p, Filter(s, keep));
      }
    } else if keep(x) {
      calc {
        Filter(Insert(p, s), keep);
        [x] + Filter(Insert(p, t), keep);
        [x] + Filter(t, keep);
        Filter(s, keep);
      }
    } else if keep(p) {
      calc {
        Filter(Insert(p, s), keep);
        Filter(Insert(p, t), keep);
        Insert(p, Filter(t, keep));
        Insert(p, Filter(s, keep));
      }
    } else {
      calc {
        Filter(Insert(p, s), keep);
        Filter(Insert(p, t), keep);
        Filter(t, keep);
        Filter(s, keep);
      }
    }
  }

  /** A post older than `p` stays in front of it. */
  lemma InsertBehind(p: Post, x: Post, t: seq<Post>)
    requires x.pubDate < p.pubDate
    ensures Insert(p, [x] + t) == [x] + Insert(p, t)
  {
    assert ([x] + t)[1..] == t;
  }

  /** Ordering then filtering equals filtering then ordering: the group page
      (which orders first) lists what filtering the group's posts and
      ordering them would. */
  lemma {:induction false} FilterOrderCommute(s: seq<Post>, keep: Post -> bool)
    ensures Filter(OrderByDate(s), keep) == OrderByDate(Filter(s, keep))
  {
    if s != [] {
      FilterOrderCommute(s[1..], keep);
      FilterInsert(s[0], OrderByDate(s[1..]), keep);
      if keep(s[0]) {
        assert Filter(s, keep) == [s[0]] + Filter(s[1..], keep);
        assert ([s[0]] + Filter(s[1..], keep))[1..] == Filter(s[1..], keep);
      }
    }
  }

  /** One page of a listing, as the template receives it. */
  datatype Page = Page(items: seq<Post>, number: nat, numPages: nat)

  /** The paginator's page count: at least one page, even for no posts. */
  function NumPages(count: nat): (n: nat)
    ensures n >= 1
    ensures count == 0 ==> n == 1
    ensures count <= n * PerPage
    ensures count > 0 ==> (n - 1) * PerPage < count
  {
    if count == 0 then 1 else (count + PerPage - 1) / PerPage
  }

  /** `get_page`: a missing or non-integer number (None) gives page 1; a
      number outside 1..numPages gives the last page. */
  function PageNumber(requested: Option<int>, numPages: nat): (k: nat)
    requires numPages >= 1
    ensures 1 <= k <= numPages
    ensures requested.None? ==> k == 1
    ensures requested.Some? && 1 <= requested.value <= numPages ==> k == requested.value
    ensures requested.Some? && !(1 <= requested.value <= numPages) ==> k == numPages
  {
    match requested
    case None => 1
    case Some(n) => if 1 <= n <= numPages then n else numPages
  }

  /** The requested page of a listing: a slice of at most ten consecutive posts. */
  function Paginate(s: seq<Post>, requested: Option<int>): (pg: Page)
    ensures pg.numPages == NumPages(|s|) && 1 <= pg.number <= pg.numPages
    ensures requested.None? ==> pg.number == 1
    ensures requested.Some? && 1 <= requested.value <= pg.numPages ==> pg.number == requested.value
    ensures requested.Some? && !(1 <= requested.value <= pg.numPages) ==> pg.number == pg.numPages
    ensures (pg.number - 1) * PerPage + |pg.items| <= |s|
    ensures pg.items == s[(pg.number - 1) * PerPage .. (pg.number - 1) * PerPage + |pg.items|]
    ensures |pg.items| == if |s| - (pg.number - 1) * PerPage < PerPage
                          then |s| - (pg.number - 1) * PerPage else PerPage
    ensures |s| > 0 ==> |pg.items| > 0
  {
    var n := NumPages(|s|);
    var k := PageNumber(requested, n);
    var start := (k - 1) * PerPage;
    var end := if start + PerPage <= |s| then start + PerPage else |s|;
    Page(s[start..end], k, n)
  }

  /** Every post of a listing is on page i / 10 + 1, at position i % 10. */
  lemma EveryPostOnItsPage(s: seq<Post>, i: nat)
    requires i < |s|
    ensures Paginate(s, Some(i / PerPage + 1)).number == i / PerPage + 1
    ensures Paginate(s, Some(i / PerPage + 1)).items[i % PerPage] == s[i]
  {
    var n := NumPages(|s|);
    assert i / PerPage + 1 <= n;
  }

  /** A listing of ten or more posts fills its first page; twelve posts leave two on page 2. */
  lemma FirstPageFull(s: seq<Post>)
    ensures |s| >= PerPage ==> |Paginate(s, None).items| == PerPage
    ensures |s| == 12 ==> |Paginate(s, Some(2)).items| == 2
  {
  }

  /** A page holds only posts of its listing. */
  lemma PageFromListing(s: seq<Post>, requested: Option<int>)
    ensures forall p :: p in Paginate(s, requested).items ==> p in s
  {
    var pg := Paginate(s, requested);
    var start := (pg.number - 1) * PerPage;
    forall p | p in pg.items ensures p in s {
      var k :| 0 <= k < |pg.items| && pg.items[k] == p;
      assert s[start + k] == p;
    }
  }

  /** Every page of a sorted listing is sorted. */
  lemma PageSorted(s: seq<Post>, requested: Option<int>)
    requires Sorted(s)
    ensures Sorted(Paginate(s, requested).items)
  {
  }
}
