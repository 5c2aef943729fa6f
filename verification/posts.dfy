/**
 The in-memory post store of the blog: an array of posts plus the counter that
 hands out post ids (index.js, lines 11-12), and the store operations that the
 route handlers perform on it (create, update in place, delete, lookup).

 Ids coming from requests pass through `parseInt` first; the model receives the
 parsed value as an `Option<int>` in which `None` stands for NaN, which is
 strictly unequal to every number and so never matches a stored post.
 */
module Posts {
  import opened Wrappers

  /** A stored post; `date` is the instant of its last save, in milliseconds. */
  datatype Post = Post(id: int, titulo: string, nome: string, texto: string, date: int)

  /** The store: the posts in insertion order and the id the next created post gets. */
  datatype Store = Store(posts: seq<Post>, nextPostId: int)

  /** The store at process start. */
  const Empty: Store := Store([], 1)

  /** `post.id === parseInt(x)` where `key` is the parsed value (None for NaN). */
  predicate Matches(p: Post, key: Option<int>)
  {
    key == Some(p.id)
  }

  predicate HasKey(posts: seq<Post>, key: Option<int>)
  {
    exists i :: 0 <= i < |posts| && Matches(posts[i], key)
  }

  predicate IdsDistinct(posts: seq<Post>)
  {
    forall i, j :: 0 <= i < j < |posts| ==> posts[i].id != posts[j].id
  }

  /** The store invariant: ids are positive, below the counter and pairwise distinct. */
  predicate Valid(s: Store)
  {
    && 1 <= s.nextPostId
    && (forall i :: 0 <= i < |s.posts| ==> 1 <= s.posts[i].id < s.nextPostId)
    && IdsDistinct(s.posts)
  }

  lemma EmptyIsValid()
    ensures Valid(Empty)
    ensures |Empty.posts| == 0
  {
  }

  /** `posts.findIndex(post => post.id === key)`, with `None` for -1: the first matching position. */
  function FindIndex(posts: seq<Post>, key: Option<int>): (r: Option<nat>)
    ensures r.Some? ==> r.value < |posts| && Matches(posts[r.value], key)
    ensures r.Some? ==> forall k :: 0 <= k < r.value ==> !Matches(posts[k], key)
    ensures r.None? <==> !HasKey(posts, key)
    decreases |posts|
  {
    if |posts| == 0 then None
    else if Matches(posts[0], key) then Some(0)
    else match FindIndex(posts[1..], key)
      case None => None
      case Some(k) => Some(k + 1)
  }

  /** `posts.find(post => post.id === key)`: the first matching post, if any. */
  function Find(posts: seq<Post>, key: Option<int>): (r: Option<Post>)
    ensures r.Some? <==> HasKey(posts, key)
    ensures r.Some? ==> r.value in posts && Matches(r.value, key)
  {
    match FindIndex(posts, key)
    case None => None
    case Some(i) => Some(posts[i])
  }

  /** With distinct ids, the lookup returns exactly the stored post carrying the id. */
  lemma FindUnique(posts: seq<Post>, p: Post)
    requires IdsDistinct(posts)
    requires p in posts
    ensures Find(posts, Some(p.id)) == Some(p)
  {
  }

  /**
   `posts.push({ id: nextPostId++, titulo, nome, texto, date: now })`: appends one
   post under the current counter and advances the counter.
   */
  function Create(s: Store, titulo: string, nome: string, texto: string, now: int): (r: Store)
    ensures |r.posts| == |s.posts| + 1
    ensures r.posts[..|s.posts|] == s.posts
    ensures r.posts[|s.posts|] == Post(s.nextPostId, titulo, nome, texto, now)
    ensures r.nextPostId == s.nextPostId + 1
    ensures Valid(s) ==> Valid(r)
    ensures Valid(s) ==> forall i :: 0 <= i < |s.posts| ==> s.posts[i].id < r.posts[|s.posts|].id
  {
    Store(s.posts + [Post(s.nextPostId, titulo, nome, texto, now)], s.nextPostId + 1)
  }

  /**
   The edit branch of the save handler: when some post matches `key`, the first
   such post is replaced by a post with id `key`, the given fields and date `now`;
   otherwise the store is returned unchanged. The counter is never touched.
   */
  function Update(s: Store, key: Option<int>, titulo: string, nome: string, texto: string, now: int): (r: Store)
    ensures |r.posts| == |s.posts|
    ensures r.nextPostId == s.nextPostId
    ensures !HasKey(s.posts, key) ==> r == s
    ensures forall i :: 0 <= i < |s.posts| ==> r.posts[i].id == s.posts[i].id
    ensures forall i :: FindIndex(s.posts, key) == Some(i) ==>
              && r.posts[i] == Post(s.posts[i].id, titulo, nome, texto, now)
              && (forall j :: 0 <= j < |s.posts| && j != i ==> r.posts[j] == s.posts[j])
    ensures Valid(s) ==> Valid(r)
  {
    match FindIndex(s.posts, key)
    case None => s
    case Some(i) => s.(posts := s.posts[i := Post(key.value, titulo, nome, texto, now)])
  }

  /** `posts.filter(post => post.id !== key)`: drops every matching post, keeps the rest in order. */
  function Filter(posts: seq<Post>, key: Option<int>): (r: seq<Post>)
    ensures |r| <= |posts|
    ensures forall p :: p in r <==> p in posts && !Matches(p, key)
    ensures !HasKey(posts, key) ==> r == posts
    decreases |posts|
  {
    if |posts| == 0 then []
    else if Matches(posts[0], key) then Filter(posts[1..], key)
    else [posts[0]] + Filter(posts[1..], key)
  }

  /** Filtering a sequence with distinct ids leaves the ids distinct. */
  lemma {:induction false} FilterKeepsDistinct(posts: seq<Post>, key: Option<int>)
    requires IdsDistinct(posts)
    ensures IdsDistinct(Filter(posts, key))
    decreases |posts|
  {
    if |posts| > 0 {
      FilterKeepsDistinct(posts[1..], key);
      if !Matches(posts[0], key) {
        var rest := Filter(posts[1..], key);
        assert forall k :: 0 <= k < |rest| ==> rest[k] in posts[1..];
        ConsDistinct(posts[0], rest);
      }
    }
  }

  /** Prepending a post whose id is new keeps the ids distinct. */
  lemma ConsDistinct(x: Post, rest: seq<Post>)
    requires IdsDistinct(rest)
    requires forall k :: 0 <= k < |rest| ==> rest[k].id != x.id
    ensures IdsDistinct([x] + rest)
  {
  }

  /** The delete handler's store change: the filter above, with the counter left alone. */
  function Delete(s: Store, key: Option<int>): (r: Store)
    ensures r.nextPostId == s.nextPostId
    ensures !HasKey(r.posts, key)
    ensures forall p :: p in r.posts <==> p in s.posts && !Matches(p, key)
    ensures !HasKey(s.posts, key) ==> r == s
    ensures Valid(s) ==> Valid(r)
  {
    if IdsDistinct(s.posts) then FilterKeepsDistinct(s.posts, key); Store(Filter(s.posts, key), s.nextPostId)
    else Store(Filter(s.posts, key), s.nextPostId)
  }

  /** Filtering distributes over concatenation. */
  lemma {:induction false} FilterAppend(a: seq<Post>, b: seq<Post>, key: Option<int>)
    ensures Filter(a + b, key) == Filter(a, key) + Filter(b, key)
    decreases |a|
  {
    if |a| == 0 {
      assert a + b == b;
    } else {
      assert (a + b)[1..] == a[1..] + b;
      FilterAppend(a[1..], b, key);
    }
  }

  /**
   Deleting a stored id from a valid store removes exactly that one post: the
   result is the store with position `i` cut out, every other post in its order.
   */
  lemma {:induction false} FilterRemovesOne(posts: seq<Post>, key: Option<int>, i: nat)
    requires IdsDistinct(posts)
    requires FindIndex(posts, key) == Some(i)
    ensures Filter(posts, key) == posts[..i] + posts[i + 1..]
  {
    var head, tail := posts[..i], posts[i + 1..];
    assert posts == head + [posts[i]] + tail;
    FilterAppend(head + [posts[i]], tail, key);
    FilterAppend(head, [posts[i]], key);
    NoMatchBefore(posts, key, i);
    NoMatchAfter(posts, key, i);
    assert Filter([posts[i]], key) == [];
  }

  /** After a create, the new id is found and yields the new post. */
  lemma FindAfterCreate(s: Store, titulo: string, nome: string, texto: string, now: int)
    requires Valid(s)
    ensures Find(Create(s, titulo, nome, texto, now).posts, Some(s.nextPostId))
            == Some(Post(s.nextPostId, titulo, nome, texto, now))
  {
  }

  /** Deleting the post just created gives back the original posts; the counter stays advanced. */
  lemma DeleteUndoesCreate(s: Store, titulo: string, nome: string, texto: string, now: int)
    requires Valid(s)
    ensures Delete(Create(s, titulo, nome, texto, now), Some(s.nextPostId)).posts == s.posts
    ensures Delete(Create(s, titulo, nome, texto, now), Some(s.nextPostId)).nextPostId == s.nextPostId + 1
  {
    var p := Post(s.nextPostId, titulo, nome, texto, now);
    assert Create(s, titulo, nome, texto, now).posts == s.posts + [p];
    FilterAppend(s.posts, [p], Some(s.nextPostId));
    assert !HasKey(s.posts, Some(s.nextPostId));
  }

  /** After an update of a stored id, the lookup yields the rewritten post. */
  lemma FindAfterUpdate(s: Store, key: Option<int>, titulo: string, nome: string, texto: string, now: int)
    requires Valid(s)
    requires HasKey(s.posts, key)
    ensures Find(Update(s, key, titulo, nome, texto, now).posts, key)
            == Some(Post(key.value, titulo, nome, texto, now))
  {
  }

  /** After a delete, the id is no longer found. */
  lemma FindAfterDelete(s: Store, key: Option<int>)
    ensures Find(Delete(s, key).posts, key).None?
  {
  }

  /** Nothing before the first match matches. */
  lemma NoMatchBefore(posts: seq<Post>, key: Option<int>, i: nat)
    requires FindIndex(posts, key) == Some(i)
    ensures !HasKey(posts[..i], key)
  {
  }

  /** With distinct ids, nothing after the first match matches. */
  lemma NoMatchAfter(posts: seq<Post>, key: Option<int>, i: nat)
    requires IdsDistinct(posts)
    requires FindIndex(posts, key) == Some(i)
    ensures !HasKey(posts[i + 1..], key)
  {
  }
}
