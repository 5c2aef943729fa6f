# Blog post store — a Dafny model

The blog application (`index.js`) keeps its posts in process memory: an array of
post records `{id, titulo, nome, texto, date}` and a counter `nextPostId` that
hands out ids starting at 1. Six route handlers read or change that store:
`/` shows the five newest posts, `/lista` all posts newest first,
`/materia/:id` one post or a 404, `/novo` the post form (pre-filled for an edit),
`/salvar` creates or edits a post, and `/excluir/:id` deletes one.

This project models the store and the handler bodies as pure functions:

- `wrappers.dfy` — `Option`.
- `posts.dfy` (module `Posts`) — the `Post` and `Store` datatypes, the store
  invariant `Valid` (ids positive, below the counter, pairwise distinct), and the
  store operations: lookup (`FindIndex`, `Find`), `Create`, `Update`, `Filter`/`Delete`.
- `views.dfy` (module `Views`) — the newest-first sort and the two listings.
- `routes.dfy` (module `Routes`) — the six handlers, each returning the new store
  and a `Response` (`Render` of a view, `Redirect`, or `NotFound`), plus `Handle`,
  which dispatches a `Request`.
- `history.dfy` (module `History`) — runs of many requests, the never-reused-ids
  property, and a step-by-step walk-through of a create/edit/delete session.

How the model treats the parts that are not plain logic:

- The clock (`new Date()`) is the integer parameter `now`, in milliseconds.
- `parseInt` is a parameter `parse: string -> Option<int>`. `None` stands for NaN.
  NaN is strictly unequal to every number, so `None` never matches a stored id (`Matches`).
- A request field is `Option<string>`: absent, or the submitted text. JavaScript
  truthiness of a field is `Truthy`: present and non-empty. A blank-only string is truthy.
- Rendering a template becomes the view data it would receive (`View`). A redirect
  becomes `Redirect("/")`. The 404 becomes `NotFound` carrying the plain-text message.

Behaviour of the save handler that the model follows from the code (index.js:37-53):

- A truthy `id` that matches no post (an unknown id, or text `parseInt` turns into NaN) leaves the store unchanged and still redirects home. It never falls back to creating a post: the route saves a new post or edits an existing one (index.js:102), and which one is decided by the id field alone.
- An empty `id` field is falsy, so such a save creates a new post.
- Only the first post matching the id is overwritten. Delete removes every matching post. In a valid store at most one post matches, so the two agree.

## Model

| member | source | states |
|---|---|---|
| Posts.EmptyIsValid | index.js:11-12 | The store at process start (no posts, counter 1) satisfies the invariant. |
| Posts.FindIndex | index.js:40-41 | The result is the first position whose post id equals the parsed id. It is absent exactly when no post matches, and a NaN id never matches. |
| Posts.Find | index.js:65 | A post is returned iff some stored post has the parsed id. The returned post is stored and has that id. |
| Posts.FindUnique | index.js:65 | When ids are distinct, looking up a stored post's id returns exactly that post. |
| Posts.Create | index.js:52 | Exactly one post is appended, with id equal to the old counter, the given fields and date `now`. The existing posts are unchanged and in order, and the counter grows by one. The invariant is preserved, and the new id exceeds every stored id. |
| Posts.Update | index.js:40-49 | The length, the counter and every post's id are unchanged. At the first matching position the post gets the new titulo/nome/texto and date `now`, and every other post is untouched. With no matching post the store is unchanged. The invariant is preserved. |
| Posts.Filter | index.js:75 | No result is longer than the input. A post is kept iff it was stored and does not match the id. With no match the sequence is unchanged. |
| Posts.FilterKeepsDistinct | index.js:75 | Filtering a store whose ids are distinct leaves them distinct. |
| Posts.Delete | index.js:73-77 | The counter is unchanged and no post with the id remains. Exactly the non-matching posts are kept. Deleting an absent or NaN id changes nothing. The invariant is preserved. |
| Posts.FilterAppend | index.js:75 | Filtering a concatenation is the concatenation of the filtered parts. |
| Posts.FilterRemovesOne | index.js:75 | In a store with distinct ids, deleting a stored id cuts out exactly that one post and keeps all others in their original order. |
| Posts.FindAfterCreate | index.js:52 | After a create, looking up the old counter value yields the new post. |
| Posts.DeleteUndoesCreate | index.js:75 | Deleting a just-created post restores the previous posts, but the counter stays advanced. |
| Posts.FindAfterUpdate | index.js:40-49 | After editing a stored id, looking up that id yields the rewritten post with the new date. |
| Posts.FindAfterDelete | index.js:75 | After a delete, the deleted id is no longer found. |
| Views.InsertByDate | index.js:16 | Inserting into a newest-first list keeps it newest first and adds exactly one occurrence of the post. |
| Views.SortByDate | index.js:81 | The sorted copy is ordered by date non-increasing and is a permutation of the input. |
| Views.ListView | index.js:79-82 | The `/lista` data is a newest-first permutation of the store. |
| Views.HomeView | index.js:14-16 | The `/` data has `min(5, n)` posts, is newest first, is the first `min(5, n)` posts of the `/lista` data, and is a sub-multiset of the store. |
| Views.HomeHoldsNewest | index.js:15-16 | Every stored post the home page leaves out is no newer than any post it shows. |
| Views.HomeIsListWhenSmall | index.js:16 | With at most five posts, the home page shows the same list as `/lista`. |
| Routes.GetHome | index.js:14-18 | `GET /` renders `min(5, n)` posts, newest first, all taken from the store. They are the first posts of the `/lista` data, and every stored post left out is no newer than every post shown. |
| Routes.GetLista | index.js:79-83 | `GET /lista` renders every stored post, newest first. |
| Routes.GetNovo | index.js:20-28 | `GET /novo` renders the form with no error. The form is pre-filled iff the query id is truthy and matches a post, and then with that post. |
| Routes.PostSalvar | index.js:30-61 | With a missing or empty titulo/nome/texto, the store is unchanged and the form is re-rendered with the error message. Otherwise the reply redirects home. A truthy id edits in place: length and counter are kept, and with no matching post the store is unchanged (never a create). Without an id, the post is appended under the old counter and the counter grows by one. The invariant is preserved. |
| Routes.GetMateria | index.js:63-71 | The reply is the 404 iff no post matches the path id. Otherwise it renders the detail view of a stored post carrying that id. |
| Routes.PostExcluir | index.js:73-77 | Always redirects home and keeps the counter. Exactly the non-matching posts remain. An absent or NaN id changes nothing. The invariant is preserved. |
| Routes.Handle | index.js:14-83 | Every request preserves the invariant and grows the counter by at most one. Only saves and deletes change the store. |
| History.Trace | index.js:11-12 | The stores a process passes through: one per handled request plus the start, each obtained from the previous by handling the next request. From a valid start every one satisfies the invariant, and the counter never decreases along the way. |
| History.Run | index.js:11-12 | The store after any sequence of requests satisfies the invariant when the start does, and its counter is at least the starting one. |
| History.EverHeldBelowCounter | index.js:12 | Every id some store along a run held, deleted later or not, is below the final counter. |
| History.IdsNeverReused | index.js:52 | After any run, a create gets an id strictly greater than every id the store ever held, including ids of deleted posts. |
| History.ProcessStoreValid | index.js:11-12 | Every store the process reaches from the empty start satisfies the invariant. |
| History.WalkCreateA | index.js:52 | Walk-through: saving A into the empty store appends it with id 1, sets the counter to 2 and redirects home. |
| History.WalkCreateB | index.js:52 | Walk-through: saving B next appends it with id 2 and sets the counter to 3. |
| History.WalkHomeBeforeEdit | index.js:16 | Walk-through: with A (date 10) and B (date 20) stored, the home page shows B before A. |
| History.WalkEditA | index.js:37-49 | Walk-through: editing A by id "1" rewrites it in place with the new date. |
| History.WalkHomeAfterEdit | index.js:16 | Walk-through: after the edit, A is newest and comes first. |
| History.WalkDeleteB | index.js:75 | Walk-through: deleting id "2" leaves only the edited A. |
| History.WalkListAfterDelete | index.js:79-82 | Walk-through: after the delete, `/lista` shows only the edited A. |
| History.WalkDetailOfDeleted | index.js:63-70 | Walk-through: the detail page of the deleted id is the 404. |
| History.WalkEmptyTitle | index.js:37-60 | Walk-through: a save with an empty title re-renders the form with the error and changes nothing. |

## Left out

- Express set-up, middleware, static files and `app.listen` on port 3000 (index.js:1-8, 85-87): framework and I/O plumbing.
- Template rendering and the HTTP layer: a response is modelled by the data handed to the template, a redirect target or the 404 message. Status codes and rendered HTML bodies are not modelled. The plain-text 404 message is.
- The clock: `new Date()` becomes the caller-supplied integer `now`. Dates are compared as integers.
- `parseInt` itself: kept abstract as a parameter. Only its NaN-never-matches consequence is modelled.
- The tie order among posts with equal dates in `Array.prototype.sort`: the model's insertion sort fixes one order, but the contracts state only sortedness and permutation.
- Form fields parsed by the extended URL-encoded body parser as arrays or objects: every field is modelled as absent or a single string.
- Post ids and the counter are unbounded integers. In JavaScript they are Numbers (doubles), which match them only below 2^53. At 2^53, `nextPostId++` stops growing and later creates would reuse an id, which needs about 9 x 10^15 creates. `Posts.Valid`, `History.Trace` and `History.IdsNeverReused` hold for the unbounded model only.
- Process restart, which empties the store, and the Portuguese comment block (index.js:89-107), which is documentation only.
