/**
 The two listings of the blog: the full list (`/lista`, index.js line 81) and the
 home page's latest posts (`/`, index.js line 16). Both copy the store and sort
 the copy with the comparator `b.date - a.date`, newest first; the home page then
 keeps the first five.
 */
module Views {
  import opened Wrappers
  import opened Posts

  /** How many posts the home page shows. */
  const HomeLimit: nat := 5

  function Min(a: int, b: int): int
  {
    if a <= b then a else b
  }

  predicate SortedByDateDesc(ps: seq<Post>)
  {
    forall i, j :: 0 <= i < j < |ps| ==> ps[i].date >= ps[j].date
  }

  /** Inserts `p` into a newest-first list ahead of the first post not newer than it. */
  function InsertByDate(p: Post, sorted: seq<Post>): (r: seq<Post>)
    requires SortedByDateDesc(sorted)
    ensures SortedByDateDesc(r)
    ensures multiset(r) == multiset(sorted) + multiset{p}
    decreases |sorted|
  {
    if |sorted| == 0 then [p]
    else if p.date >= sorted[0].date then [p] + sorted
    else
      var rest := InsertByDate(p, sorted[1..]);
      assert sorted == [sorted[0]] + sorted[1..];
      NoNewerThanHead(sorted[0], sorted[1..], p, rest);
      [sorted[0]] + rest
  }

  /**
   If `h` is at least as new as a newest-first list and as `p`, then putting `h`
   in front of any rearrangement of the list plus `p` is newest first.
   */
  lemma NoNewerThanHead(h: Post, tail: seq<Post>, p: Post, rest: seq<Post>)
    requires SortedByDateDesc([h] + tail)
    requires SortedByDateDesc(rest)
    requires p.date <= h.date
    requires multiset(rest) == multiset(tail) + multiset{p}
    ensures SortedByDateDesc([h] + rest)
  {
    forall k | 0 <= k < |rest|
      ensures rest[k].date <= h.date
    {
      var x := rest[k];
      assert x in multiset(rest);
      if x != p {
        assert x in multiset(tail);
        var j :| 0 <= j < |tail| && tail[j] == x;
        var whole := [h] + tail;
        assert whole[0] == h && whole[j + 1] == x;
        assert whole[0].date >= whole[j + 1].date;
      }
    }
    var r := [h] + rest;
    forall i, j | 0 <= i < j < |r|
      ensures r[i].date >= r[j].date
    {
      assert r[j] == rest[j - 1];
      if i > 0 {
        assert r[i] == rest[i - 1];
      }
    }
  }

  /** The copy-and-sort `[...posts].sort((a, b) => b.date - a.date)`, as an insertion sort. */
  function SortByDate(ps: seq<Post>): (r: seq<Post>)
    ensures SortedByDateDesc(r)
    ensures multiset(r) == multiset(ps)
    decreases |ps|
  {
    if |ps| == 0 then []
    else
      assert ps == [ps[0]] + ps[1..];
      InsertByDate(ps[0], SortByDate(ps[1..]))
  }

  /** The view data of `/lista`: every stored post, newest first. */
  function ListView(s: Store): (r: seq<Post>)
    ensures SortedByDateDesc(r)
    ensures multiset(r) == multiset(s.posts)
    ensures |r| == |s.posts|
  {
    var r := SortByDate(s.posts);
    assert |r| == |multiset(r)| == |multiset(s.posts)| == |s.posts|;
    r
  }

  /** The view data of `/`: the first five posts of the newest-first list. */
  function HomeView(s: Store): (r: seq<Post>)
    ensures |r| == Min(HomeLimit, |s.posts|)
    ensures SortedByDateDesc(r)
    ensures r == ListView(s)[..|r|]
    ensures multiset(r) <= multiset(s.posts)
  {
    var all := ListView(s);
    var r := all[..Min(HomeLimit, |all|)];
    assert all == r + all[|r|..];
    r
  }

  /**
   Every stored post the home page leaves out is no newer than every post it shows:
   the home page holds the latest posts.
   */
  lemma HomeHoldsNewest(s: Store, q: Post)
    requires q in multiset(s.posts) - multiset(HomeView(s))
    ensures forall p :: p in HomeView(s) ==> q.date <= p.date
  {
    var all := ListView(s);
    var home := HomeView(s);
    var rest := all[|home|..];
    assert all == home + rest;
    assert multiset(s.posts) == multiset(home) + multiset(rest);
    assert q in rest;
    var j :| 0 <= j < |rest| && rest[j] == q;
    forall p | p in home
      ensures q.date <= p.date
    {
      var i :| 0 <= i < |home| && home[i] == p;
      assert all[i] == p && all[|home| + j] == q;
    }
  }

  /** Both listings show the same posts when the store holds at most five. */
  lemma HomeIsListWhenSmall(s: Store)
    requires |s.posts| <= HomeLimit
    ensures HomeView(s) == ListView(s)
  {
  }
}
