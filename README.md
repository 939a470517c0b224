# Blog API request layer, in Dafny

This project models the request-decision layer of a small blog backend. The backend is a Flask
application with a users table and a posts table. Clients register, log in and log out with a
session cookie. They create posts, list them, and delete or update their own posts. Each route
handler is modelled as one operation on an abstract store plus the client's session. The store
holds the users table, the posts table and an id counter for each table. An operation returns a
status code and a payload, and may change the store or the session.

- `types.dfy` (module `Types`): users, posts, request bodies, responses, the state, and the
  invariant `Consistent`. The invariant says that ids lie below their table's counter, that every
  post's author is a registered user, and that a session names a registered user.
- `queries.dfy` (module `Queries`): the ORM queries. `query.all()`, `filter_by(author_id=…)` and
  `filter_by(username=…).first()` are functions over the tables that read rows in ascending id
  order.
- `handlers.dfy` (module `Handlers`): one function per route. Each contract covers the
  authentication, validation, ownership and frame rules of its handler.
- `traces.dfy` (module `Traces`): a request type, a dispatch `Step`, and `Run` over a sequence of
  requests. Lemmas here hold across runs. The invariant is kept. Nobody but a post's author can
  change or delete the post. Users are permanent. Register followed by login succeeds. A created
  post appears in the listings.
- `server.dfy` (module `Server`): the class `App`. It holds the tables, the counters and the
  session as fields, and has one imperative method per route. Each method is proved to answer
  and update its fields exactly as the matching handler function says.

Where the code and the design description disagree, the model follows the code:
- Create and update accept empty content. The code checks only that the `content` key is
  present.
- Registering a username that already exists is not rejected. `app.py` has no such check, and
  `models.py` is not part of this model.
- Both listings serialise posts with the same `to_dict`. So the per-user listing carries the
  same fields as the full listing, modelled as `Entry(id, post)`.
- Login whose name matches a user but whose body has no `password` key passes `None` to the
  hash check. That call raises, so Flask answers 500. The model returns status 500 with
  `InternalError` and changes nothing.

## Model

| member | source | states |
|---|---|---|
| Queries.PostsBetween | app.py:68 | The result holds each post with an id in the range exactly once, with its stored columns, and ids strictly increase |
| Queries.AllPosts | app.py:68-69 | In a consistent state, an entry is listed if and only if the posts table holds it, and the listing is in ascending id order |
| Queries.AuthoredBy | app.py:78 | An entry is kept if and only if it is in the input and its author is the given user, and the order of an ascending listing is preserved |
| Queries.PostsOf | app.py:78-79 | In a consistent state, an entry is listed if and only if it is a stored post by the given author, in ascending id order |
| Queries.FirstNamed | app.py:35 | Returns the lowest id in the range whose user has the name, or None when no user in the range has it |
| Queries.FindUser | app.py:35 | A found id is a stored user with the requested name and no lower id has that name; None means no user has the name; an absent name finds no one |
| Handlers.Register | app.py:19-28 | 201 if and only if both username and password are present. Otherwise 400 "Missing username or password" with nothing changed. On success exactly one user is added under a fresh id with the hashed password, and posts and session are unchanged. The invariant is kept |
| Handlers.Login | app.py:32-39 | Only the session can change. 200 if and only if the named user exists, a password is given and the hash check passes; then the session holds that user's id and the payload returns it. 500 if and only if the user exists but the password key is missing. Every other failure is the same 401 "Invalid credentials", whether the name is unknown or the password wrong, with nothing changed |
| Handlers.LoginRevealsRegisteredNames | app.py:35-36 | In a consistent store, a login body with a name and no password answers 500 if and only if some user has that name, so the status reveals which names are registered |
| Handlers.LoginLeakExample | app.py:35-39 | The body `{"username": "a"}` answers 500 against a store holding a user "a" and 401 against the empty store |
| Handlers.LoginGeneric | app.py:32-39 | Corrected login: only the session can change; 200 under the same condition as Login, with the session set to the found user; every failure is the same 401 "Invalid credentials" with nothing changed |
| Handlers.LoginGenericHidesNames | app.py:35-39 | Two stores that both refuse a login body answer it with the same response, and the corrected login agrees with Login on every request Login does not answer with 500 |
| Handlers.Logout | app.py:43-46 | Always 200 and needs no session. Afterwards the session is empty and nothing else has changed |
| Handlers.CreatePost | app.py:50-62 | With no session, 401 and nothing changed, whatever the body. With a session but no content, 400 and nothing changed. 201 if and only if both hold; then exactly one post is added under a fresh id, with the submitted content, the session user as author and the given time, and the id is returned |
| Handlers.ListPosts | app.py:66-69 | Always 200 with no session needed, nothing changes, and in a consistent state the listing holds exactly the stored posts |
| Handlers.ListUserPosts | app.py:73-79 | 200 if and only if the session user is the requested user, otherwise 401. Nothing changes. On success the listing holds exactly that user's posts |
| Handlers.DeletePost | app.py:83-93 | With no session, 401. 200 if and only if the post exists and the session user wrote it, and then only that post is removed. A missing post and someone else's post both give 404 with nothing changed. No post is ever altered |
| Handlers.UpdatePost | app.py:97-111 | The session is checked first (401), then the body (400), then ownership (404), and each failure changes nothing. 200 if and only if content is given and the caller owns the post. Then only that post's content changes; its author, its timestamp and every other post stay the same |
| Traces.Step | app.py:18-111 | Every request answered with a status of 300 or more leaves the state unchanged. Every request keeps the invariant, never removes or alters a user, and leaves unchanged every post whose author is not the session user |
| Traces.Run | app.py:18-111 | Any sequence of requests from a consistent state ends in a consistent state |
| Traces.OthersCannotTouchPost | app.py:89-108 | A post is still present and unchanged after any run in which its author is never the session user |
| Traces.UsersArePermanent | app.py:25-27 | Every registered user is still present and unchanged after any run |
| Traces.AuthorsAreRegistered | app.py:37-59 | In every state reachable from the empty store, every post's author is a registered user |
| Traces.RegisterThenLogin | app.py:22-38 | Registering a name no one has, then logging in with the same password (when the hash check accepts a password against its own hash), answers 200 with the new user's id and sets the session to it |
| Traces.CreatedPostIsListed | app.py:59-79 | A post just created by the session user appears, with its content, author and time, in the full listing and in that user's own listing |
| Traces.LogoutIdempotent | app.py:45-46 | Logging out twice has the same effect as logging out once |
| Server.App.constructor | app.py:14-15 | A new application starts with empty tables, both counters at 1, no session, and the invariant holds |
| Server.App.RegisterUser | app.py:19-28 | Updates the users table and its counter exactly as Handlers.Register, and keeps the invariant |
| Server.App.LoginUser | app.py:32-39 | Writes only the session, exactly as Handlers.Login |
| Server.App.LogoutUser | app.py:43-46 | Clears only the session, exactly as Handlers.Logout |
| Server.App.CreateBlogPost | app.py:50-62 | Adds the post and advances the counter exactly as Handlers.CreatePost |
| Server.App.GetBlogPosts | app.py:66-69 | Returns 200 and every stored post, each once, in ascending id order |
| Server.App.GetUserBlogPosts | app.py:73-79 | Returns 401 unless the session user is the requested one; otherwise exactly that user's posts |
| Server.App.DeleteBlogPost | app.py:83-93 | Writes only the posts table, exactly as Handlers.DeletePost |
| Server.App.UpdateBlogPost | app.py:97-111 | Writes only the posts table, exactly as Handlers.UpdatePost |

## Left out

- Flask routing, JSON parsing and `jsonify` are not modelled. A body is a record of optional
  fields, and a response is a status plus a payload datatype. Path ids are `nat`, because the
  `<int:…>` converters match only non-negative ids; Flask answers other paths with 404 before
  any handler runs, and that 404 is not modelled. JSON values other than strings in
  the body, such as null or numbers, are not modelled.
- SQLAlchemy and sqlite (`db.session.add`, `commit`, `query.get`, table creation) become
  in-memory maps. Ids come from a counter per table. sqlite's own rowid choice can reuse the id
  of a deleted highest post, and this is not modelled. The model's ids are never reused.
- `filter_by(username=…).first()` has no ORDER BY, so SQL does not fix which row comes first.
  The model takes the lowest id.
- `query.all()` and `filter_by(author_id=…).all()` have no ORDER BY either, so SQL leaves the
  order of both listings open. The model lists posts in ascending id order. Its claims about
  which posts are listed do not depend on that order.
- Password hashing with werkzeug is a foreign cryptographic call. It is modelled by two
  function parameters: `hash` for `generate_password_hash` and `check` for
  `check_password_hash`. Within a run of requests `hash` is one fixed function, so the random
  salt is not modelled: two registrations with the same password store the same hash.
- `datetime.utcnow()` is modelled as a `now` argument. Clock behaviour is not modelled.
- Login with no body or a non-JSON body would raise when `get` is called on `None`. The model's
  login always takes a body.
- A uniqueness constraint on usernames, if `models.py` declares one, is not part of this model.
  So a duplicate registration succeeds here.
- The `/api/about` handler returns a fixed documentation literal, and it is not modelled. Its
  claim of HTTP Basic Auth contradicts the session checks the handlers actually make.
- The `index` page, the secret key and `app.run` are not modelled.
- Concurrent requests and database isolation are not modelled. Each request is one atomic step
  by one client with one session.
- The session is a signed cookie held by the client. Replayed older cookies (logout only
  replaces the client's copy) and cookies forged with the placeholder secret key are not
  modelled. In the model only login and logout change the session. The per-request ownership
  property of `Traces.Step` holds for whatever session a request carries.
- Update assigns `post.content` on a shared ORM object. The model replaces the post value in
  the map, so aliasing of that object is not captured.

## Findings

| source | as written | input that shows it | evidently intended | confidence | as-written member | corrected member |
|---|---|---|---|---|---|---|
| app.py:35-36 | When the name matches a user and the body has no `password` key, `check_password_hash` receives `None` and raises, so the answer is 500; an unknown name answers 401 | body `{"username": "a"}` against a store with a user "a" (500) and against an empty store (401) | a missing password is an invalid credential like any other, so every failed login is the same generic 401 and does not reveal whether the name is registered | not executed | Handlers.LoginRevealsRegisteredNames | Handlers.LoginGenericHidesNames |

`Handlers.Login` keeps the as-written behaviour, and `Handlers.LoginLeakExample` gives the
concrete input. `Handlers.LoginGeneric` is the corrected handler. `Handlers.LoginGenericHidesNames`
proves that it answers every refused body identically, and that it agrees with `Handlers.Login`
except on the 500 case. Both versions leave the state unchanged when they refuse, and they
differ only in the response to those refused bodies. The request traces and
`Server.App.LoginUser` therefore follow the source as written.
