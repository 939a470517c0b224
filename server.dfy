/** The application object: both tables, their id counters and the client's
    session, updated in place by one method per route. Each method is proved
    to answer and leave the state exactly as its handler function says. */
module Server {
  import opened Types
  import opened Queries
  import Handlers

  class App {
    var users: map<UserId, User>
    var posts: map<PostId, Post>
    var nextUserId: UserId
    var nextPostId: PostId
    var session: Option<UserId>

    /** The current state as a value. */
    function Snapshot(): State
      reads this
    {
      State(users, posts, nextUserId, nextPostId, session)
    }

    ghost predicate Valid()
      reads this
    {
      Consistent(Snapshot())
    }

    constructor ()
      ensures Snapshot() == Initial()
      ensures Valid()
    {
      users, posts := map[], map[];
      nextUserId, nextPostId := 1, 1;
      session := None;
    }

    method RegisterUser(body: Option<Body>, hash: string -> string) returns (resp: Response)
      requires Valid()
      modifies this
      ensures Valid()
      ensures Outcome(resp, Snapshot()) == Handlers.Register(old(Snapshot()), body, hash)
    {
      if body.None? || body.value.username.None? || body.value.password.None? {
        return Response(400, Error(Handlers.MissingCredentials));
      }
      var user := User(body.value.username.value, hash(body.value.password.value));
      users := users[nextUserId := user];
      nextUserId := nextUserId + 1;
      resp := Response(201, Message(Handlers.UserRegistered));
    }

    method LoginUser(body: Body, check: (string, string) -> bool) returns (resp: Response)
      requires Valid()
      modifies this`session
      ensures Valid()
      ensures Outcome(resp, Snapshot()) == Handlers.Login(old(Snapshot()), body, check)
    {
      var found := FindUser(Snapshot(), body.username);
      if found.Some? {
        if body.password.None? {
          return Response(500, InternalError);
        }
        if check(users[found.value].passwordHash, body.password.value) {
          session := Some(found.value);
          return Response(200, LoggedIn(Handlers.LoginSuccessful, found.value));
        }
      }
      resp := Response(401, Error(Handlers.InvalidCredentials));
    }

    method LogoutUser() returns (resp: Response)
      requires Valid()
      modifies this`session
      ensures Valid()
      ensures Outcome(resp, Snapshot()) == Handlers.Logout(old(Snapshot()))
    {
      session := None;
      resp := Response(200, Message(Handlers.LogoutSuccessful));
    }

    method CreateBlogPost(body: Option<Body>, now: Timestamp) returns (resp: Response)
      requires Valid()
      modifies this
      ensures Valid()
      ensures Outcome(resp, Snapshot()) == Handlers.CreatePost(old(Snapshot()), body, now)
    {
      if session.None? {
        return Response(401, Error(Handlers.Unauthorized));
      }
      if body.None? || body.value.content.None? {
        return Response(400, Error(Handlers.MissingContent));
      }
      var id := nextPostId;
      posts := posts[id := Post(body.value.content.value, session.value, now)];
      nextPostId := nextPostId + 1;
      resp := Response(201, Created(id));
    }

    method GetBlogPosts() returns (resp: Response)
      requires Valid()
      ensures resp == Handlers.ListPosts(Snapshot()).response
      ensures resp.status == 200 && resp.payload.Entries? && Ascending(resp.payload.entries)
      ensures forall id, p :: Entry(id, p) in resp.payload.entries <==> id in posts && posts[id] == p
    {
      resp := Response(200, Entries(AllPosts(Snapshot())));
    }

    method GetUserBlogPosts(uid: nat) returns (resp: Response)
      requires Valid()
      ensures resp == Handlers.ListUserPosts(Snapshot(), uid).response
      ensures resp.status == 200 || resp.status == 401
      ensures resp.status == 200 ==> resp.payload.Entries? && forall id, p ::
        Entry(id, p) in resp.payload.entries <==> id in posts && posts[id] == p && p.authorId == uid
    {
      if session.None? || session.value != uid {
        return Response(401, Error(Handlers.Unauthorized));
      }
      resp := Response(200, Entries(PostsOf(Snapshot(), uid)));
    }

    method DeleteBlogPost(id: nat) returns (resp: Response)
      requires Valid()
      modifies this`posts
      ensures Valid()
      ensures Outcome(resp, Snapshot()) == Handlers.DeletePost(old(Snapshot()), id)
    {
      if session.None? {
        return Response(401, Error(Handlers.Unauthorized));
      }
      if id in posts && posts[id].authorId == session.value {
        posts := posts - {id};
        return Response(200, Message(Handlers.PostDeleted));
      }
      resp := Response(404, Error(Handlers.NotFoundOrUnauthorized));
    }

    method UpdateBlogPost(id: nat, body: Option<Body>) returns (resp: Response)
      requires Valid()
      modifies this`posts
      ensures Valid()
      ensures Outcome(resp, Snapshot()) == Handlers.UpdatePost(old(Snapshot()), id, body)
    {
      if session.None? {
        return Response(401, Error(Handlers.Unauthorized));
      }
      if body.None? || body.value.content.None? {
        return Response(400, Error(Handlers.MissingContent));
      }
      if id in posts && posts[id].authorId == session.value {
        posts := posts[id := posts[id].(content := body.value.content.value)];
        return Response(200, Message(Handlers.PostUpdated));
      }
      resp := Response(404, Error(Handlers.NotFoundOrUnauthorized));
    }
  }
}
