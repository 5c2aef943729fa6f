/**
 Sequences of requests against one store, as the running process sees them:
 the store invariant holds after every request, the counter only grows, and an
 id once handed out is never handed out again, even after its post is deleted.
 */
module History {
  import opened Wrappers
  import opened Posts
  import opened Views
  import opened Routes

  /**
   The stores a process passes through while handling `reqs` in order, starting
   from `s`: the invariant holds in each one and the counter never decreases.
   */
  function Trace(s: Store, parse: Parser, reqs: seq<Request>): (r: seq<Store>)
    ensures |r| == |reqs| + 1 && r[0] == s
    ensures forall k :: 0 <= k < |reqs| ==> r[k + 1] == Handle(r[k], parse, reqs[k]).store
    ensures Valid(s) ==> forall k :: 0 <= k < |r| ==> Valid(r[k])
    ensures forall j, k :: 0 <= j <= k < |r| ==> r[j].nextPostId <= r[k].nextPostId
    decreases |reqs|
  {
    if |reqs| == 0 then [s]
    else
      var rest := Trace(Handle(s, parse, reqs[0]).store, parse, reqs[1..]);
      var r := [s] + rest;
      assert forall k :: 0 < k < |r| ==> r[k] == rest[k - 1];
      r
  }

  /** The store after handling `reqs` in order. */
  function Run(s: Store, parse: Parser, reqs: seq<Request>): (r: Store)
    ensures Valid(s) ==> Valid(r)
    ensures s.nextPostId <= r.nextPostId
  {
    Trace(s, parse, reqs)[|reqs|]
  }

  /** Some store along the run held a post with this id, whether or not it was deleted later. */
  predicate EverHeld(s: Store, parse: Parser, reqs: seq<Request>, id: int)
  {
    var tr := Trace(s, parse, reqs);
    exists k, i :: 0 <= k < |tr| && 0 <= i < |tr[k].posts| && tr[k].posts[i].id == id
  }

  /** Every id the store ever held during a run is below the counter at the end of the run. */
  lemma EverHeldBelowCounter(s: Store, parse: Parser, reqs: seq<Request>, id: int)
    requires Valid(s)
    requires EverHeld(s, parse, reqs, id)
    ensures id < Run(s, parse, reqs).nextPostId
  {
  }

  /**
   After any run from a valid store, a create assigns an id strictly greater than
   every id the store ever held, so ids of deleted posts are never reused.
   */
  lemma IdsNeverReused(s: Store, parse: Parser, reqs: seq<Request>,
                       titulo: Field, nome: Field, texto: Field, now: int, id: int)
    requires Valid(s)
    requires Truthy(titulo) && Truthy(nome) && Truthy(texto)
    requires EverHeld(s, parse, reqs, id)
    ensures var t := Run(s, parse, reqs);
            var r := PostSalvar(t, parse, titulo, nome, texto, None, now).store;
            |r.posts| == |t.posts| + 1 && id < r.posts[|t.posts|].id
  {
  }

  /** A running process starts from the empty store, so the invariant holds throughout. */
  lemma ProcessStoreValid(parse: Parser, reqs: seq<Request>)
    ensures Valid(Run(Empty, parse, reqs))
  {
  }

  /** A parser sufficient for the walk-through below. */
  function DemoParse(text: string): Option<int>
  {
    if text == "1" then Some(1) else if text == "2" then Some(2) else None
  }

  // Walk-through: create A then B; the home page shows B before A; editing A moves
  // it to the top; deleting B leaves only A in the list; B's detail page is a 404;
  // and a save with an empty title changes nothing.

  const PostA := Post(1, "T1", "Ana", "B1", 10)
  const PostB := Post(2, "T2", "Bo", "B2", 20)
  const PostA2 := Post(1, "T1b", "Ana", "B1", 30)

  lemma WalkCreateA()
    ensures PostSalvar(Empty, DemoParse, Some("T1"), Some("Ana"), Some("B1"), None, 10)
            == Reply(Store([PostA], 2), Redirect(HomePath))
  {
  }

  lemma WalkCreateB()
    ensures PostSalvar(Store([PostA], 2), DemoParse, Some("T2"), Some("Bo"), Some("B2"), None, 20)
            == Reply(Store([PostA, PostB], 3), Redirect(HomePath))
  {
  }

  lemma WalkHomeBeforeEdit()
    ensures GetHome(Store([PostA, PostB], 3)) == Render(HomePage([PostB, PostA]))
  {
  }

  lemma WalkEditA()
    ensures PostSalvar(Store([PostA, PostB], 3), DemoParse, Some("T1b"), Some("Ana"), Some("B1"), Some("1"), 30)
            == Reply(Store([PostA2, PostB], 3), Redirect(HomePath))
  {
  }

  lemma WalkHomeAfterEdit()
    ensures GetHome(Store([PostA2, PostB], 3)) == Render(HomePage([PostA2, PostB]))
  {
  }

  lemma WalkDeleteB()
    ensures PostExcluir(Store([PostA2, PostB], 3), DemoParse, "2") == Reply(Store([PostA2], 3), Redirect(HomePath))
  {
    assert Filter([PostB], Some(2)) == [];
    assert Filter([PostA2, PostB], Some(2)) == [PostA2] + Filter([PostB], Some(2));
  }

  lemma WalkListAfterDelete()
    ensures GetLista(Store([PostA2], 3)) == Render(ListPage([PostA2]))
  {
  }

  lemma WalkDetailOfDeleted()
    ensures GetMateria(Store([PostA2], 3), DemoParse, "2") == NotFound(NotFoundMessage)
  {
  }

  lemma WalkEmptyTitle()
    ensures PostSalvar(Store([PostA2], 3), DemoParse, Some(""), Some("X"), Some("Y"), None, 40)
            == Reply(Store([PostA2], 3), Render(PostForm(None, Some(SaveError))))
  {
  }
}
