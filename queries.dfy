/** The ORM queries the handlers issue, as functions over the tables. Rows are
    read in ascending primary-key order. */
module Queries {
  import opened Types

  /** Ids strictly increase along the listing. */
  predicate Ascending(r: seq<Entry>) {
    forall i, j :: 0 <= i < j < |r| ==> r[i].id < r[j].id
  }

  /** The posts stored under ids in [lo, hi), in ascending id order. */
  function PostsBetween(posts: map<PostId, Post>, lo: PostId, hi: PostId): (r: seq<Entry>)
    ensures forall i :: 0 <= i < |r| ==> lo <= r[i].id < hi && r[i].id in posts && posts[r[i].id] == r[i].post
    ensures forall id :: lo <= id < hi && id in posts ==> Entry(id, posts[id]) in r
    ensures Ascending(r)
    decreases hi - lo
  {
    if lo >= hi then []
    else if lo in posts then [Entry(lo, posts[lo])] + PostsBetween(posts, lo + 1, hi)
    else PostsBetween(posts, lo + 1, hi)
  }

  /** `BlogPost.query.all()`: every post, each exactly once, by ascending id. */
  function AllPosts(s: State): (r: seq<Entry>)
    ensures Consistent(s) ==> forall id, p :: Entry(id, p) in r <==> id in s.posts && s.posts[id] == p
    ensures Ascending(r)
  {
    PostsBetween(s.posts, 1, s.nextPostId)
  }

  /** The entries of a listing written by `uid`, in their original order. */
  function AuthoredBy(entries: seq<Entry>, uid: UserId): (r: seq<Entry>)
    ensures forall e :: e in r <==> e in entries && e.post.authorId == uid
    ensures Ascending(entries) ==> Ascending(r)
  {
    if entries == [] then []
    else if entries[0].post.authorId == uid then [entries[0]] + AuthoredBy(entries[1..], uid)
    else AuthoredBy(entries[1..], uid)
  }

  /** `BlogPost.query.filter_by(author_id=uid).all()`: exactly the posts whose
      author is `uid`, by ascending id. */
  function PostsOf(s: State, uid: UserId): (r: seq<Entry>)
    ensures Consistent(s) ==> forall id, p :: Entry(id, p) in r <==> id in s.posts && s.posts[id] == p && p.authorId == uid
    ensures Ascending(r)
  {
    AuthoredBy(AllPosts(s), uid)
  }

  /** The lowest id in [lo, hi) of a user called `name`, if there is one. */
  function FirstNamed(users: map<UserId, User>, name: string, lo: UserId, hi: UserId): (r: Option<UserId>)
    ensures r.Some? ==> lo <= r.value < hi && r.value in users && users[r.value].username == name
    ensures r.Some? ==> forall id :: lo <= id < r.value && id in users ==> users[id].username != name
    ensures r.None? ==> forall id :: lo <= id < hi && id in users ==> users[id].username != name
    decreases hi - lo
  {
    if lo >= hi then None
    else if lo in users && users[lo].username == name then Some(lo)
    else FirstNamed(users, name, lo + 1, hi)
  }

  /** `User.query.filter_by(username=name).first()`. An absent name filters on
      NULL, which no stored username is, so it finds no one. */
  function FindUser(s: State, name: Option<string>): (r: Option<UserId>)
    ensures r.Some? ==> name.Some? && r.value in s.users && s.users[r.value].username == name.value
    ensures Consistent(s) && r.Some? ==> forall id :: id in s.users && id < r.value ==> s.users[id].username != name.value
    ensures Consistent(s) && name.Some? && r.None? ==> forall id :: id in s.users ==> s.users[id].username != name.value
  {
    match name
    case None => None
    case Some(n) => FirstNamed(s.users, n, 1, s.nextUserId)
  }
}
