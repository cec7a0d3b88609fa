/** The records of the posts app (groups, posts, comments, follow edges) and
    the users they refer to, held together as one database value `Db`.
    `Consistent` is what the schema itself guarantees (primary keys, unique
    columns, foreign keys); `Valid` adds the one invariant that only the
    request handlers maintain, and only while requests run one at a time:
    no follow edge is stored twice. */
module Models {
  import opened Collections

  type UserId = nat
  type GroupId = nat
  type PostId = nat
  type CommentId = nat

  /** A stored image file, identified by its storage name. Its bytes are not modelled. */
  type Image = string

  /** The identity part of a user account; credentials belong to the auth system. */
  datatype User = User(id: UserId, username: string)

  datatype Group = Group(id: GroupId, title: string, slug: string, description: string)

  /** `pubDate` is set once on creation; ties are possible. */
  datatype Post = Post(
    id: PostId,
    text: string,
    pubDate: nat,
    author: UserId,
    group: Option<GroupId>,
    image: Option<Image>)

  datatype Comment = Comment(id: CommentId, post: PostId, author: UserId, text: string, created: nat)

  /** A directed edge: `user` follows `author`. */
  datatype Follow = Follow(user: UserId, author: UserId)

  /** The tables, in row order, and the next values of the two id sequences
      that the handlers draw from. */
  datatype Db = Db(
    users: seq<User>,
    groups: seq<Group>,
    posts: seq<Post>,
    comments: seq<Comment>,
    follows: seq<Follow>,
    nextPostId: PostId,
    nextCommentId: CommentId)

  function UserIds(db: Db): set<UserId> { set u | u in db.users :: u.id }
  function GroupIds(db: Db): set<GroupId> { set g | g in db.groups :: g.id }
  function PostIds(db: Db): set<PostId> { set p | p in db.posts :: p.id }

  ghost predicate UsernamesUnique(db: Db) {
    KeysDistinct(db.users, (u: User) => u.username)
  }

  ghost predicate PostRefsOk(db: Db, p: Post) {
    && p.id < db.nextPostId
    && p.author in UserIds(db)
    && (p.group.Some? ==> p.group.value in GroupIds(db))
  }

  ghost predicate CommentRefsOk(db: Db, c: Comment) {
    && c.id < db.nextCommentId
    && c.post in PostIds(db)
    && c.author in UserIds(db)
  }

  /** What the schema enforces: primary keys, the unique username and slug
      columns, and every foreign key pointing at an existing row. Follow has
      no uniqueness constraint on (user, author). */
  ghost predicate Consistent(db: Db) {
    && KeysDistinct(db.users, (u: User) => u.id)
    && UsernamesUnique(db)
    && KeysDistinct(db.groups, (g: Group) => g.id)
    && KeysDistinct(db.groups, (g: Group) => g.slug)
    && KeysDistinct(db.posts, (p: Post) => p.id)
    && KeysDistinct(db.comments, (c: Comment) => c.id)
    && (forall p :: p in db.posts ==> PostRefsOk(db, p))
    && (forall c :: c in db.comments ==> CommentRefsOk(db, c))
    && (forall e :: e in db.follows ==> e.user in UserIds(db) && e.author in UserIds(db))
  }

  /** The store invariant: the schema's guarantees plus unique follow edges,
      which the follow handler's get-or-create keeps only while requests are
      served one at a time: `get_or_create` is a lookup followed by a separate
      insert, so two concurrent follows of the same author can both insert. */
  ghost predicate Valid(db: Db) {
    Consistent(db) && Distinct(db.follows)
  }

  /** The schema alone admits the same follow edge twice. */
  lemma DuplicateEdgesAllowed()
    ensures exists db :: Consistent(db) && !Distinct(db.follows)
  {
    var db := Db([User(0, "a"), User(1, "b")], [], [], [], [Follow(0, 1), Follow(0, 1)], 0, 0);
    assert db.users[0] in db.users && db.users[1] in db.users;
    assert UserIds(db) == {0, 1};
    assert Identity(db.follows[0]) == Identity(db.follows[1]);
  }

  // ---- Lookups (get_object_or_404 and friends) ----

  function FindUser(users: seq<User>, username: string): (r: Option<User>)
    ensures r.Some? ==> r.value in users && r.value.username == username
    ensures r.None? <==> forall u :: u in users ==> u.username != username
  {
    match IndexOf(users, (u: User) => u.username == username)
    case None => None
    case Some(i) => Some(users[i])
  }

  function FindGroup(groups: seq<Group>, slug: string): (r: Option<Group>)
    ensures r.Some? ==> r.value in groups && r.value.slug == slug
    ensures r.None? <==> forall g :: g in groups ==> g.slug != slug
  {
    match IndexOf(groups, (g: Group) => g.slug == slug)
    case None => None
    case Some(i) => Some(groups[i])
  }

  /** Slug is a unique column, so at most one group answers to a slug. */
  lemma {:induction false} GroupBySlugUnique(db: Db, slug: string, g: Group)
    requires Consistent(db)
    requires FindGroup(db.groups, slug) == Some(g)
    ensures forall h :: h in db.groups && h.slug == slug ==> h == g
  {
    forall h | h in db.groups && h.slug == slug ensures h == g {
      KeyDetermines(db.groups, (g: Group) => g.slug, h, g);
    }
  }

  /** `p` is the post with this id whose author has this username: the join
      `author__username=username, id=post_id`. */
  ghost predicate PostMatches(db: Db, username: string, id: PostId, p: Post) {
    && p in db.posts
    && p.id == id
    && exists u :: u in db.users && u.username == username && u.id == p.author
  }

  /** The post the URL names: its index in the store, with its author,
      found by one lookup of the username and one of the post. */
  function LookupPost(db: Db, username: string, id: PostId): (r: Option<(nat, User)>)
    ensures r.Some? ==> r.value.0 < |db.posts| && PostMatches(db, username, id, db.posts[r.value.0])
    ensures r.Some? ==> r.value.1 in db.users && r.value.1.username == username
    ensures r.Some? ==> r.value.1.id == db.posts[r.value.0].author
    ensures UsernamesUnique(db) ==> (r.None? <==> forall p :: !PostMatches(db, username, id, p))
  {
    match FindUser(db.users, username)
    case None => None
    case Some(u) =>
      var found := IndexOf(db.posts, (p: Post) => p.id == id && p.author == u.id);
      assert UsernamesUnique(db) && found.None? ==> forall p :: !PostMatches(db, username, id, p) by {
        if UsernamesUnique(db) && found.None? {
          forall p | PostMatches(db, username, id, p) ensures false {
            var v :| v in db.users && v.username == username && v.id == p.author;
            KeyDetermines(db.users, (w: User) => w.username, u, v);
          }
        }
      }
      match found
      case None => None
      case Some(i) =>
        assert PostMatches(db, username, id, db.posts[i]);
        Some((i, u))
  }

  /** With primary keys in place the join matches at most one post. */
  lemma {:induction false} PostLookupUnique(db: Db, username: string, id: PostId, p: Post, q: Post)
    requires Consistent(db)
    requires PostMatches(db, username, id, p) && PostMatches(db, username, id, q)
    ensures p == q
  {
    KeyDetermines(db.posts, (r: Post) => r.id, p, q);
  }

  // ---- String forms (__str__) ----

  const PostLabelLength := 15

  /** A post is shown as the first 15 characters of its text. */
  function PostLabel(p: Post): (r: string)
    ensures |r| == if |p.text| < PostLabelLength then |p.text| else PostLabelLength
    ensures r <= p.text
  {
    if |p.text| <= PostLabelLength then p.text else p.text[..PostLabelLength]
  }

  /** A group is shown as its title. */
  function GroupLabel(g: Group): (r: string)
    ensures r == g.title
  {
    g.title
  }

  /** A follow edge is shown as the followed author's username; a dangling
      author reference (which `Consistent` rules out) has no label. */
  function FollowLabel(db: Db, e: Follow): (r: Option<string>)
    ensures r.Some? ==> exists u :: u in db.users && u.id == e.author && u.username == r.value
    ensures r.None? <==> e.author !in UserIds(db)
  {
    match IndexOf(db.users, (u: User) => u.id == e.author)
    case None => None
    case Some(i) => Some(db.users[i].username)
  }

  lemma FollowLabelOfValid(db: Db, e: Follow)
    requires Consistent(db) && e in db.follows
    ensures FollowLabel(db, e).Some?
  {
  }

  // ---- Deletion rules (on_delete) ----

  /** Deleting a post deletes its comments (CASCADE). */
  function DeletePost(db: Db, id: PostId): (r: Db)
    ensures forall p :: p in r.posts <==> p in db.posts && p.id != id
    ensures forall c :: c in r.comments <==> c in db.comments && c.post != id
    ensures r == db.(posts := r.posts, comments := r.comments)
  {
    db.(posts := Filter(db.posts, (p: Post) => p.id != id),
        comments := Filter(db.comments, (c: Comment) => c.post != id))
  }

  function PostIdsBy(posts: seq<Post>, author: UserId): set<PostId> {
    set p | p in posts && p.author == author :: p.id
  }

  /** Deleting a user deletes their posts (and so the comments on them),
      their own comments, and every follow edge on either end (CASCADE). */
  function DeleteUser(db: Db, id: UserId): (r: Db)
    ensures forall u :: u in r.users <==> u in db.users && u.id != id
    ensures forall p :: p in r.posts <==> p in db.posts && p.author != id
    ensures forall c :: c in r.comments <==>
      c in db.comments && c.author != id && c.post !in PostIdsBy(db.posts, id)
    ensures forall e :: e in r.follows <==> e in db.follows && e.user != id && e.author != id
    ensures r == db.(users := r.users, posts := r.posts, comments := r.comments, follows := r.follows)
  {
    var gone := PostIdsBy(db.posts, id);
    db.(users := Filter(db.users, (u: User) => u.id != id),
        posts := Filter(db.posts, (p: Post) => p.author != id),
        comments := Filter(db.comments, (c: Comment) => c.author != id && c.post !in gone),
        follows := Filter(db.follows, (e: Follow) => e.user != id && e.author != id))
  }

  function Ungrouped(p: Post, id: GroupId): Post {
    if p.group == Some(id) then p.(group := None) else p
  }

  /** Deleting a group keeps its posts and sets their group to null (SET_NULL). */
  function DeleteGroup(db: Db, id: GroupId): (r: Db)
    ensures forall g :: g in r.groups <==> g in db.groups && g.id != id
    ensures |r.posts| == |db.posts|
    ensures forall i :: 0 <= i < |r.posts| ==>
      r.posts[i] == db.posts[i].(group := if db.posts[i].group == Some(id) then None else db.posts[i].group)
    ensures forall p :: p in r.posts ==> p.group != Some(id)
    ensures r == db.(groups := r.groups, posts := r.posts)
  {
    db.(groups := Filter(db.groups, (g: Group) => g.id != id),
        posts := seq(|db.posts|, i requires 0 <= i < |db.posts| => Ungrouped(db.posts[i], id)))
  }

  lemma {:induction false} DeletePostKeepsValid(db: Db, id: PostId)
    requires Valid(db)
    ensures Valid(DeletePost(db, id))
  {
    var r := DeletePost(db, id);
    FilterKeysDistinct(db.posts, (p: Post) => p.id != id, (p: Post) => p.id);
    FilterKeysDistinct(db.comments, (c: Comment) => c.post != id, (c: Comment) => c.id);
    assert UserIds(r) == UserIds(db) && GroupIds(r) == GroupIds(db);
    forall p | p in r.posts ensures PostRefsOk(r, p) {
      assert PostRefsOk(db, p);
    }
    forall c | c in r.comments ensures CommentRefsOk(r, c) {
      assert CommentRefsOk(db, c);
      var p :| p in db.posts && p.id == c.post;
      assert p in r.posts;
    }
  }

  lemma {:induction false} DeleteUserKeepsValid(db: Db, id: UserId)
    requires Valid(db)
    ensures Valid(DeleteUser(db, id))
  {
    var r := DeleteUser(db, id);
    var gone := PostIdsBy(db.posts, id);
    FilterKeysDistinct(db.users, (u: User) => u.id != id, (u: User) => u.id);
    FilterKeysDistinct(db.users, (u: User) => u.id != id, (u: User) => u.username);
    FilterKeysDistinct(db.posts, (p: Post) => p.author != id, (p: Post) => p.id);
    FilterKeysDistinct(db.comments, (c: Comment) => c.author != id && c.post !in gone, (c: Comment) => c.id);
    FilterKeysDistinct(db.follows, (e: Follow) => e.user != id && e.author != id, Identity);
    assert forall x :: x in UserIds(db) && x != id ==> x in UserIds(r) by {
      forall x | x in UserIds(db) && x != id ensures x in UserIds(r) {
        var u :| u in db.users && u.id == x;
        assert u in r.users;
      }
    }
    forall p | p in r.posts ensures PostRefsOk(r, p) {
      assert PostRefsOk(db, p);
    }
    forall c | c in r.comments ensures CommentRefsOk(r, c) {
      assert CommentRefsOk(db, c);
      var p :| p in db.posts && p.id == c.post;
      assert p.author != id;
      assert p in r.posts;
    }
  }

  lemma {:induction false} DeleteGroupKeepsValid(db: Db, id: GroupId)
    requires Valid(db)
    ensures Valid(DeleteGroup(db, id))
  {
    var r := DeleteGroup(db, id);
    FilterKeysDistinct(db.groups, (g: Group) => g.id != id, (g: Group) => g.id);
    FilterKeysDistinct(db.groups, (g: Group) => g.id != id, (g: Group) => g.slug);
    assert forall i :: 0 <= i < |r.posts| ==> r.posts[i].id == db.posts[i].id;
    assert PostIds(r) == PostIds(db) by {
      forall x | x in PostIds(db) ensures x in PostIds(r) {
        var i :| 0 <= i < |db.posts| && db.posts[i].id == x;
        assert r.posts[i] in r.posts;
      }
    }
    forall p | p in r.posts ensures PostRefsOk(r, p) {
      var i :| 0 <= i < |r.posts| && r.posts[i] == p;
      assert PostRefsOk(db, db.posts[i]);
      if p.group.Some? {
        var g :| g in db.groups && g.id == p.group.value;
        assert g in r.groups;
      }
    }
    forall c | c in r.comments ensures CommentRefsOk(r, c) {
      assert CommentRefsOk(db, c);
    }
  }
}
