/**
 The six route handlers of index.js as pure functions of the store. A handler
 that changes the store returns the new store together with its response; the
 others return only the response. Template rendering and HTTP are represented by
 the `Response` they would produce, and the clock by the `now` parameter.
 */
module Routes {
  import opened Wrappers
  import opened Posts
  import opened Views

  /** A request field: absent (`undefined`) or the submitted text. */
  type Field = Option<string>

  /** JavaScript's `parseInt`, left abstract: `None` stands for NaN. */
  type Parser = string -> Option<int>

  /** Truthiness of a field: present and non-empty. A blank-only string is truthy. */
  predicate Truthy(f: Field)
  {
    f.Some? && |f.value| > 0
  }

  /** The data handed to each template. */
  datatype View =
    | HomePage(posts: seq<Post>)                         // index.ejs
    | PostForm(toEdit: Option<Post>, error: Option<string>) // novo.ejs
    | Detail(post: Post)                                 // materia.ejs
    | ListPage(posts: seq<Post>)                         // lista.ejs

  datatype Response =
    | Render(view: View)
    | Redirect(location: string)
    | NotFound(message: string)   // status 404 with a plain-text body

  /** A handler's outcome: the store after the request and the response sent. */
  datatype Reply = Reply(store: Store, response: Response)

  const HomePath := "/"
  const SaveError := "Por favor, preencha t\U{ED}tulo, nome e texto."
  const NotFoundMessage := "Mat\U{E9}ria n\U{E3}o encontrada."

  /** `GET /`: the latest five posts. */
  function GetHome(s: Store): (r: Response)
    ensures r.Render? && r.view.HomePage?
    ensures |r.view.posts| == Min(HomeLimit, |s.posts|)
    ensures SortedByDateDesc(r.view.posts)
    ensures multiset(r.view.posts) <= multiset(s.posts)
    ensures r.view.posts == ListView(s)[..|r.view.posts|]
    ensures forall q, p :: q in multiset(s.posts) - multiset(r.view.posts) && p in r.view.posts ==> q.date <= p.date
  {
    forall q | q in multiset(s.posts) - multiset(HomeView(s))
      ensures forall p :: p in HomeView(s) ==> q.date <= p.date
    {
      HomeHoldsNewest(s, q);
    }
    Render(HomePage(HomeView(s)))
  }

  /** `GET /lista`: every post, newest first. */
  function GetLista(s: Store): (r: Response)
    ensures r.Render? && r.view.ListPage?
    ensures SortedByDateDesc(r.view.posts)
    ensures multiset(r.view.posts) == multiset(s.posts)
  {
    Render(ListPage(ListView(s)))
  }

  /**
   `GET /novo`: the post form, pre-filled with the post whose id is the query
   parameter when that parameter is truthy and matches a post; empty otherwise.
   */
  function GetNovo(s: Store, parse: Parser, queryId: Field): (r: Response)
    ensures r.Render? && r.view.PostForm? && r.view.error.None?
    ensures r.view.toEdit.Some? <==> Truthy(queryId) && HasKey(s.posts, parse(queryId.value))
    ensures r.view.toEdit.Some? ==>
              r.view.toEdit.value in s.posts && Matches(r.view.toEdit.value, parse(queryId.value))
  {
    var postToEdit := if Truthy(queryId) then Find(s.posts, parse(queryId.value)) else None;
    Render(PostForm(postToEdit, None))
  }

  /**
   `POST /salvar`: with titulo, nome and texto all truthy, edits the post named
   by a truthy `id` (a silent no-op when none matches) or, without one, creates a
   post; then redirects home. Otherwise it re-renders the form with the error
   message and changes nothing.
   */
  function PostSalvar(s: Store, parse: Parser, titulo: Field, nome: Field, texto: Field,
                      id: Field, now: int): (r: Reply)
    ensures !(Truthy(titulo) && Truthy(nome) && Truthy(texto)) ==>
              r == Reply(s, Render(PostForm(None, Some(SaveError))))
    ensures Truthy(titulo) && Truthy(nome) && Truthy(texto) ==> r.response == Redirect(HomePath)
    ensures Truthy(id) && !HasKey(s.posts, parse(id.value)) ==> r.store == s
    ensures Truthy(id) ==> |r.store.posts| == |s.posts| && r.store.nextPostId == s.nextPostId
    ensures Truthy(titulo) && Truthy(nome) && Truthy(texto) && Truthy(id) ==>
              forall i :: FindIndex(s.posts, parse(id.value)) == Some(i) ==>
                && r.store.posts[i] == Post(s.posts[i].id, titulo.value, nome.value, texto.value, now)
                && (forall j :: 0 <= j < |s.posts| && j != i ==> r.store.posts[j] == s.posts[j])
    ensures Truthy(titulo) && Truthy(nome) && Truthy(texto) && !Truthy(id) ==>
              && r.store.posts == s.posts + [Post(s.nextPostId, titulo.value, nome.value, texto.value, now)]
              && r.store.nextPostId == s.nextPostId + 1
    ensures Valid(s) ==> Valid(r.store)
  {
    if Truthy(titulo) && Truthy(nome) && Truthy(texto) then
      var store :=
        if Truthy(id) then Update(s, parse(id.value), titulo.value, nome.value, texto.value, now)
        else Create(s, titulo.value, nome.value, texto.value, now);
      Reply(store, Redirect(HomePath))
    else
      Reply(s, Render(PostForm(None, Some(SaveError))))
  }

  /** `GET /materia/:id`: the post's detail page, or 404 when no post matches. */
  function GetMateria(s: Store, parse: Parser, pathId: string): (r: Response)
    ensures r.NotFound? <==> !HasKey(s.posts, parse(pathId))
    ensures r.NotFound? ==> r.message == NotFoundMessage
    ensures !r.NotFound? ==>
              r.Render? && r.view.Detail? && r.view.post in s.posts && Matches(r.view.post, parse(pathId))
  {
    match Find(s.posts, parse(pathId))
    case Some(post) => Render(Detail(post))
    case None => NotFound(NotFoundMessage)
  }

  /** `POST /excluir/:id`: removes every post with the id, then redirects home. */
  function PostExcluir(s: Store, parse: Parser, pathId: string): (r: Reply)
    ensures r.response == Redirect(HomePath)
    ensures r.store.nextPostId == s.nextPostId
    ensures forall p :: p in r.store.posts <==> p in s.posts && !Matches(p, parse(pathId))
    ensures !HasKey(s.posts, parse(pathId)) ==> r.store == s
    ensures Valid(s) ==> Valid(r.store)
  {
    Reply(Delete(s, parse(pathId)), Redirect(HomePath))
  }

  /** One request to the application. */
  datatype Request =
    | Home
    | Novo(queryId: Field)
    | Salvar(titulo: Field, nome: Field, texto: Field, id: Field, now: int)
    | Materia(pathId: string)
    | Excluir(pathId: string)
    | Lista

  /** Dispatches a request to its handler. */
  function Handle(s: Store, parse: Parser, req: Request): (r: Reply)
    ensures Valid(s) ==> Valid(r.store)
    ensures r.store.nextPostId == s.nextPostId || r.store.nextPostId == s.nextPostId + 1
    ensures !req.Salvar? && !req.Excluir? ==> r.store == s
  {
    match req
    case Home => Reply(s, GetHome(s))
    case Novo(q) => Reply(s, GetNovo(s, parse, q))
    case Salvar(t, n, x, id, now) => PostSalvar(s, parse, t, n, x, id, now)
    case Materia(id) => Reply(s, GetMateria(s, parse, id))
    case Excluir(id) => PostExcluir(s, parse, id)
    case Lista => Reply(s, GetLista(s))
  }
}
