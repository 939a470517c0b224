/** The route handlers: each one takes the state and the request, and decides
    the response and the state that follows. Failed requests change nothing. */
module Handlers {
  import opened Types
  import opened Queries

  const MissingCredentials := "Missing username or password"
  const UserRegistered := "User registered successfully"
  const LoginSuccessful := "Login successful"
  const InvalidCredentials := "Invalid credentials"
  const LogoutSuccessful := "Logout successful"
  const Unauthorized := "Unauthorized"
  const MissingContent := "Missing content"
  const PostDeleted := "Blog post deleted"
  const PostUpdated := "Blog post updated"
  const NotFoundOrUnauthorized := "Blog post not found or unauthorized"

  predicate HasCredentials(body: Option<Body>) {
    body.Some? && body.value.username.Some? && body.value.password.Some?
  }

  predicate HasContent(body: Option<Body>) {
    body.Some? && body.value.content.Some?
  }

  /** True when the session's user wrote post `id`. */
  predicate Owns(s: State, id: PostId) {
    s.session.Some? && id in s.posts && s.posts[id].authorId == s.session.value
  }

  /** POST /api/register */
  function Register(s: State, body: Option<Body>, hash: string -> string): (o: Outcome)
    ensures o.response.status == 201 <==> HasCredentials(body)
    ensures !HasCredentials(body) ==> o.response == Response(400, Error(MissingCredentials)) && o.state == s
    ensures HasCredentials(body) ==>
      && o.state.users == s.users[s.nextUserId := User(body.value.username.value, hash(body.value.password.value))]
      && o.state.posts == s.posts
      && o.state.session == s.session
    ensures Consistent(s) && HasCredentials(body) ==> s.nextUserId !in s.users && |o.state.users| == |s.users| + 1
    ensures Consistent(s) ==> Consistent(o.state)
  {
    if !HasCredentials(body) then
      Outcome(Response(400, Error(MissingCredentials)), s)
    else
      var user := User(body.value.username.value, hash(body.value.password.value));
      Outcome(Response(201, Message(UserRegistered)),
              s.(users := s.users[s.nextUserId := user], nextUserId := s.nextUserId + 1))
  }

  /** POST /api/login. A body is present; a user found under the name whose
      password key is missing makes the hash check raise, which is a 500. */
  function Login(s: State, body: Body, check: (string, string) -> bool): (o: Outcome)
    ensures o.state == s.(session := o.state.session)
    ensures o.response.status == 200 || o.response.status == 401 || o.response.status == 500
    ensures o.response.status != 200 ==> o.state == s
    ensures var u := FindUser(s, body.username);
      o.response.status == 200 <==>
        u.Some? && body.password.Some? && check(s.users[u.value].passwordHash, body.password.value)
    ensures var u := FindUser(s, body.username);
      o.response.status == 200 ==>
        o.state.session == u && o.response.payload == LoggedIn(LoginSuccessful, u.value)
    ensures o.response.status == 401 ==> o.response == Response(401, Error(InvalidCredentials))
    ensures o.response.status == 500 <==> FindUser(s, body.username).Some? && body.password.None?
    ensures Consistent(s) ==> Consistent(o.state)
  {
    match FindUser(s, body.username)
    case None => Outcome(Response(401, Error(InvalidCredentials)), s)
    case Some(id) =>
      match body.password
      case None => Outcome(Response(500, InternalError), s)
      case Some(pw) =>
        if check(s.users[id].passwordHash, pw) then
          Outcome(Response(200, LoggedIn(LoginSuccessful, id)), s.(session := Some(id)))
        else
          Outcome(Response(401, Error(InvalidCredentials)), s)
  }

  /** Login with a body whose name matches a user but which has no password
      answers 500, while an unknown name answers 401: the status tells whether
      the name is registered. */
  lemma LoginRevealsRegisteredNames(s: State, name: string, check: (string, string) -> bool)
    requires Consistent(s)
    ensures Login(s, Body(Some(name), None, None), check).response.status == 500
        <==> exists id :: id in s.users && s.users[id].username == name
  {
  }

  /** The same body `{"username": "a"}` against a store that has a user "a" and
      against one that does not. */
  lemma LoginLeakExample(check: (string, string) -> bool)
    ensures var body := Body(Some("a"), None, None);
      var known := State(map[1 := User("a", "h")], map[], 2, 1, None);
      && Login(known, body, check).response == Response(500, InternalError)
      && Login(Initial(), body, check).response == Response(401, Error(InvalidCredentials))
  {
  }

  /** Login as evidently intended: a missing password is an invalid credential
      like any other, so every failure is the same generic 401. */
  function LoginGeneric(s: State, body: Body, check: (string, string) -> bool): (o: Outcome)
    ensures o.state == s.(session := o.state.session)
    ensures var u := FindUser(s, body.username);
      o.response.status == 200 <==>
        u.Some? && body.password.Some? && check(s.users[u.value].passwordHash, body.password.value)
    ensures var u := FindUser(s, body.username);
      o.response.status == 200 ==>
        o.state.session == u && o.response.payload == LoggedIn(LoginSuccessful, u.value)
    ensures o.response.status != 200 ==> o.response == Response(401, Error(InvalidCredentials)) && o.state == s
    ensures Consistent(s) ==> Consistent(o.state)
  {
    match FindUser(s, body.username)
    case None => Outcome(Response(401, Error(InvalidCredentials)), s)
    case Some(id) =>
      if body.password.Some? && check(s.users[id].passwordHash, body.password.value) then
        Outcome(Response(200, LoggedIn(LoginSuccessful, id)), s.(session := Some(id)))
      else
        Outcome(Response(401, Error(InvalidCredentials)), s)
  }

  /** The corrected login hides whether a name is registered: two stores that
      both refuse a body answer it identically. It agrees with Login on every
      request that Login does not answer with 500. */
  lemma LoginGenericHidesNames(s: State, t: State, body: Body, check: (string, string) -> bool)
    ensures LoginGeneric(s, body, check).response.status != 200 && LoginGeneric(t, body, check).response.status != 200
      ==> LoginGeneric(s, body, check).response == LoginGeneric(t, body, check).response
    ensures Login(s, body, check).response.status != 500 ==> LoginGeneric(s, body, check) == Login(s, body, check)
  {
  }

  /** POST /api/logout: needs no session and always succeeds. */
  function Logout(s: State): (o: Outcome)
    ensures o.response.status == 200
    ensures o.state.session.None?
    ensures o.state == s.(session := o.state.session)
    ensures Consistent(s) ==> Consistent(o.state)
  {
    Outcome(Response(200, Message(LogoutSuccessful)), s.(session := None))
  }

  /** POST /api/blog. The session is checked before the body. */
  function CreatePost(s: State, body: Option<Body>, now: Timestamp): (o: Outcome)
    ensures s.session.None? ==> o.response == Response(401, Error(Unauthorized)) && o.state == s
    ensures s.session.Some? && !HasContent(body) ==> o.response == Response(400, Error(MissingContent)) && o.state == s
    ensures o.response.status == 201 <==> s.session.Some? && HasContent(body)
    ensures o.response.status == 201 ==>
      && o.response.payload == Created(s.nextPostId)
      && o.state.posts == s.posts[s.nextPostId := Post(body.value.content.value, s.session.value, now)]
      && o.state.users == s.users
      && o.state.session == s.session
    ensures Consistent(s) && o.response.status == 201 ==>
      s.nextPostId !in s.posts && o.state.posts.Keys == s.posts.Keys + {s.nextPostId}
    ensures Consistent(s) ==> Consistent(o.state)
  {
    if s.session.None? then
      Outcome(Response(401, Error(Unauthorized)), s)
    else if !HasContent(body) then
      Outcome(Response(400, Error(MissingContent)), s)
    else
      var post := Post(body.value.content.value, s.session.value, now);
      Outcome(Response(201, Created(s.nextPostId)),
              s.(posts := s.posts[s.nextPostId := post], nextPostId := s.nextPostId + 1))
  }

  /** GET /api/blog: every post, with no session needed. */
  function ListPosts(s: State): (o: Outcome)
    ensures o.state == s && o.response.status == 200 && o.response.payload.Entries?
    ensures Consistent(s) ==> forall id, p ::
      Entry(id, p) in o.response.payload.entries <==> id in s.posts && s.posts[id] == p
  {
    Outcome(Response(200, Entries(AllPosts(s))), s)
  }

  /** GET /api/blog/user/<uid>: only the session's own posts can be listed. */
  function ListUserPosts(s: State, uid: UserId): (o: Outcome)
    ensures o.state == s
    ensures o.response.status == 200 <==> s.session == Some(uid)
    ensures s.session != Some(uid) ==> o.response == Response(401, Error(Unauthorized))
    ensures Consistent(s) && o.response.status == 200 ==> o.response.payload.Entries? && forall id, p ::
      Entry(id, p) in o.response.payload.entries <==> id in s.posts && s.posts[id] == p && p.authorId == uid
  {
    if s.session.None? || s.session.value != uid then
      Outcome(Response(401, Error(Unauthorized)), s)
    else
      Outcome(Response(200, Entries(PostsOf(s, uid))), s)
  }

  /** DELETE /api/blog/<id>: a missing post and someone else's post are the same 404. */
  function DeletePost(s: State, id: PostId): (o: Outcome)
    ensures s.session.None? ==> o.response == Response(401, Error(Unauthorized)) && o.state == s
    ensures o.response.status == 200 <==> Owns(s, id)
    ensures s.session.Some? && !Owns(s, id) ==>
      o.response == Response(404, Error(NotFoundOrUnauthorized)) && o.state == s
    ensures Owns(s, id) ==> o.state == s.(posts := o.state.posts) && o.state.posts.Keys == s.posts.Keys - {id}
    ensures forall k :: k in o.state.posts ==> k in s.posts && o.state.posts[k] == s.posts[k]
    ensures Consistent(s) ==> Consistent(o.state)
  {
    if s.session.None? then
      Outcome(Response(401, Error(Unauthorized)), s)
    else if Owns(s, id) then
      Outcome(Response(200, Message(PostDeleted)), s.(posts := s.posts - {id}))
    else
      Outcome(Response(404, Error(NotFoundOrUnauthorized)), s)
  }

  /** PATCH /api/blog/<id>: the session first, then the body, then ownership;
      only the content of the post changes. */
  function UpdatePost(s: State, id: PostId, body: Option<Body>): (o: Outcome)
    ensures s.session.None? ==> o.response == Response(401, Error(Unauthorized)) && o.state == s
    ensures s.session.Some? && !HasContent(body) ==> o.response == Response(400, Error(MissingContent)) && o.state == s
    ensures o.response.status == 200 <==> HasContent(body) && Owns(s, id)
    ensures s.session.Some? && HasContent(body) && !Owns(s, id) ==>
      o.response == Response(404, Error(NotFoundOrUnauthorized)) && o.state == s
    ensures o.response.status == 200 ==>
      && o.state == s.(posts := o.state.posts)
      && o.state.posts.Keys == s.posts.Keys
      && o.state.posts[id] == s.posts[id].(content := body.value.content.value)
      && forall k :: k in s.posts && k != id ==> o.state.posts[k] == s.posts[k]
    ensures Consistent(s) ==> Consistent(o.state)
  {
    if s.session.None? then
      Outcome(Response(401, Error(Unauthorized)), s)
    else if !HasContent(body) then
      Outcome(Response(400, Error(MissingContent)), s)
    else if Owns(s, id) then
      Outcome(Response(200, Message(PostUpdated)),
              s.(posts := s.posts[id := s.posts[id].(content := body.value.content.value)]))
    else
      Outcome(Response(404, Error(NotFoundOrUnauthorized)), s)
  }
}
