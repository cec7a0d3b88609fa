/** The request handlers of the posts app. The listing and detail handlers
    are queries, written as functions of the database. Each handler that
    writes is written twice: as a step function from the old database to
    the response and the new database, which the lemmas reason about, and
    as a method of `Store`, the database object it updates in place, proved
    to follow its step function. The signed-in user is a request parameter
    (None for a guest), and so is the clock reading `now`. */
module Views {
  import opened Collections
  import opened Models
  import opened Listing

  /** The named URL patterns a response can point to. */
  datatype Route =
    | IndexRoute
    | GroupRoute(slug: string)
    | NewPostRoute
    | ProfileRoute(username: string)
    | PostRoute(username: string, postId: PostId)
    | PostEditRoute(username: string, postId: PostId)
    | CommentRoute(username: string, postId: PostId)
    | FollowIndexRoute
    | FollowRoute(username: string)
    | UnfollowRoute(username: string)

  /** What a rendered template receives; forms are shown by kind only. */
  datatype View =
    | IndexView(page: Page)
    | GroupView(group: Group, page: Page)
    | NewPostForm
    | EditPostForm(post: Post)
    | ProfileView(author: User, authorPosts: seq<Post>, page: Page, following: bool)
    | PostDetail(author: User, post: Post, comments: seq<Comment>)
    | FeedView(page: Page)

  datatype Response =
    | Render(view: View)
    | Redirect(to: Route)
    | LoginRedirect(next: Route)  // to the login page, returning to `next`
    | NotFound
    | ServerError                 // an exception the handler does not catch

  datatype RequestMethod = GetRequest | PostRequest

  /** The image part of a submitted post form. Whether an upload decodes as
      an image is decided by the imaging library and arrives as a flag. */
  datatype ImageField = NoFile | ClearFile | Upload(image: Image, decodes: bool)

  /** A submitted post form: the fields `group`, `text` and `image`. */
  datatype PostFormData = PostFormData(text: string, group: Option<GroupId>, image: ImageField)

  /** The part of the post form's validation that the model sees: text is
      required, a chosen group must exist, an upload must be an image. */
  predicate PostFormValid(db: Db, f: PostFormData) {
    && |f.text| > 0
    && (f.group.Some? ==> f.group.value in GroupIds(db))
    && (f.image.Upload? ==> f.image.decodes)
  }

  /** The comment form's one field, text, is required. */
  predicate CommentFormValid(text: string) {
    |text| > 0
  }

  /** The image a post keeps after a valid form is saved over `current`. */
  function ImageAfter(current: Option<Image>, f: ImageField): Option<Image> {
    match f
    case NoFile => current
    case ClearFile => None
    case Upload(img, _) => Some(img)
  }

  /** The signed-in user, if any, has an account in the database. */
  ghost predicate KnownUser(db: Db, user: Option<UserId>) {
    user.Some? ==> user.value in UserIds(db)
  }

  // ---- Queries ----

  /** index: every post, oldest first, ten to a page. */
  function Index(db: Db, page: Option<int>): (r: Response)
    ensures r.Render? && r.view.IndexView?
    ensures r.view.page == Paginate(OrderByDate(db.posts), page)
    ensures r.view.page.numPages == NumPages(|db.posts|)
    ensures |r.view.page.items| <= PerPage && Sorted(r.view.page.items)
    ensures forall p :: p in r.view.page.items ==> p in db.posts
    ensures page.None? && |db.posts| >= PerPage ==> |r.view.page.items| == PerPage
  {
    var all := OrderByDate(db.posts);
    SameMembers(all, db.posts);
    PageSorted(all, page);
    PageFromListing(all, page);
    FirstPageFull(all);
    Render(IndexView(Paginate(all, page)))
  }

  /** Every post of the store is on some page of the index. */
  lemma {:induction false} IndexShowsEveryPost(db: Db, p: Post)
    requires p in db.posts
    ensures exists k :: p in Index(db, Some(k)).view.page.items
  {
    var all := OrderByDate(db.posts);
    assert p in multiset(all);
    var i :| 0 <= i < |all| && all[i] == p;
    EveryPostOnItsPage(all, i);
    var k := i / PerPage + 1;
    assert Index(db, Some(k)).view.page.items[i % PerPage] == p;
  }

  function InGroup(id: GroupId): Post -> bool {
    (p: Post) => p.group == Some(id)
  }

  /** group_posts' listing: ordered first, then narrowed to the group. */
  function GroupListing(db: Db, id: GroupId): (r: seq<Post>)
    ensures r == OrderByDate(Filter(db.posts, InGroup(id)))
    ensures Sorted(r)
    ensures forall p :: p in r <==> p in db.posts && p.group == Some(id)
  {
    var all := OrderByDate(db.posts);
    SameMembers(all, db.posts);
    FilterOrderCommute(db.posts, InGroup(id));
    Filter(all, InGroup(id))
  }

  /** A group's listing holds each of the group's posts as often as the store does, and nothing else. */
  lemma GroupListingCounts(db: Db, id: GroupId, p: Post)
    ensures multiset(GroupListing(db, id))[p] == if p.group == Some(id) then multiset(db.posts)[p] else 0
  {
    FilterCount(db.posts, InGroup(id), p);
  }

  /** group_posts: NotFound for an unknown slug, else that group's posts, ten to a page. */
  function GroupPosts(db: Db, slug: string, page: Option<int>): (r: Response)
    ensures r.NotFound? <==> forall g :: g in db.groups ==> g.slug != slug
    ensures r.NotFound? || (r.Render? && r.view.GroupView?)
    ensures r.Render? ==> r.view.group in db.groups && r.view.group.slug == slug
    ensures r.Render? ==> r.view.page == Paginate(GroupListing(db, r.view.group.id), page)
    ensures r.Render? ==> forall p :: p in r.view.page.items ==> p in db.posts && p.group == Some(r.view.group.id)
    ensures r.Render? ==> |r.view.page.items| <= PerPage && Sorted(r.view.page.items)
  {
    match FindGroup(db.groups, slug)
    case None => NotFound
    case Some(g) =>
      var all := GroupListing(db, g.id);
      PageSorted(all, page);
      PageFromListing(all, page);
      Render(GroupView(g, Paginate(all, page)))
  }

  function ByAuthor(id: UserId): Post -> bool {
    (p: Post) => p.author == id
  }

  /** profile's listing: the author's posts, oldest first. */
  function ProfileListing(db: Db, author: UserId): (r: seq<Post>)
    ensures r == OrderByDate(Filter(db.posts, ByAuthor(author)))
    ensures Sorted(r)
    ensures forall p :: p in r <==> p in db.posts && p.author == author
  {
    var mine := Filter(db.posts, ByAuthor(author));
    var r := OrderByDate(mine);
    SameMembers(r, mine);
    r
  }

  /** The `following` flag: a signed-in visitor, not the author, with an edge to the author. */
  function IsFollowing(db: Db, user: Option<UserId>, author: UserId): bool {
    user.Some? && user.value != author && Follow(user.value, author) in db.follows
  }

  /** profile: NotFound for an unknown username, else the author's posts,
      ten to a page, and whether the visitor follows the author. */
  function Profile(db: Db, user: Option<UserId>, username: string, page: Option<int>): (r: Response)
    ensures r.NotFound? <==> forall u :: u in db.users ==> u.username != username
    ensures r.NotFound? || (r.Render? && r.view.ProfileView?)
    ensures r.Render? ==> r.view.author in db.users && r.view.author.username == username
    ensures r.Render? ==> r.view.authorPosts == ProfileListing(db, r.view.author.id)
    ensures r.Render? ==> r.view.page == Paginate(r.view.authorPosts, page)
    ensures r.Render? ==>
      (r.view.following <==>
        user.Some? && user.value != r.view.author.id && Follow(user.value, r.view.author.id) in db.follows)
    ensures r.Render? && (user.None? || user.value == r.view.author.id) ==> !r.view.following
  {
    match FindUser(db.users, username)
    case None => NotFound
    case Some(a) =>
      var all := ProfileListing(db, a.id);
      Render(ProfileView(a, all, Paginate(all, page), IsFollowing(db, user, a.id)))
  }

  /** The comments on a post, each as often as stored, in store order: the query has
      no ordering, and store order is one of the orders the database may return. */
  function CommentsOn(comments: seq<Comment>, id: PostId): (r: seq<Comment>)
    ensures forall c :: c in r <==> c in comments && c.post == id
    ensures forall c :: multiset(r)[c] == if c.post == id then multiset(comments)[c] else 0
  {
    var r := Filter(comments, (c: Comment) => c.post == id);
    assert forall c :: multiset(r)[c] == if c.post == id then multiset(comments)[c] else 0 by {
      forall c ensures multiset(r)[c] == if c.post == id then multiset(comments)[c] else 0 {
        FilterCount(comments, (c: Comment) => c.post == id, c);
      }
    }
    r
  }

  /** post_view: NotFound unless a post has this id and an author with this
      username; else the post, its author and its comments. */
  function PostView(db: Db, username: string, id: PostId): (r: Response)
    ensures r.NotFound? <==> LookupPost(db, username, id).None?
    ensures UsernamesUnique(db) ==> (r.NotFound? <==> forall p :: !PostMatches(db, username, id, p))
    ensures r.NotFound? || (r.Render? && r.view.PostDetail?)
    ensures r.Render? ==> PostMatches(db, username, id, r.view.post)
    ensures r.Render? ==> r.view.author in db.users && r.view.author.username == username
    ensures r.Render? ==> r.view.author.id == r.view.post.author
    ensures r.Render? ==> r.view.comments == CommentsOn(db.comments, id)
    ensures r.Render? ==> forall c :: c in r.view.comments <==> c in db.comments && c.post == id
  {
    match LookupPost(db, username, id)
    case None => NotFound
    case Some((i, author)) =>
      var post := db.posts[i];
      Render(PostDetail(author, post, CommentsOn(db.comments, post.id)))
  }

  /** The rows of the join `author__following__user=user`: each post once
      for every edge from `user` to its author. */
  function FeedRows(posts: seq<Post>, follows: seq<Follow>, user: UserId): (r: seq<Post>)
    ensures forall p :: p in r <==> p in posts && Follow(user, p.author) in follows
    ensures forall p :: multiset(r)[p] == multiset(posts)[p] * multiset(follows)[Follow(user, p.author)]
  {
    if posts == [] then []
    else
      var p := posts[0];
      var copies := Repeat(p, multiset(follows)[Follow(user, p.author)]);
      var rest := FeedRows(posts[1..], follows, user);
      FeedRowsCons(posts, follows, user, copies, rest);
      copies + rest
  }

  /** One step of the join: the first post's copies in front of the other posts' rows. */
  lemma FeedRowsCons(posts: seq<Post>, follows: seq<Follow>, user: UserId, copies: seq<Post>, rest: seq<Post>)
    requires posts != []
    requires copies == Repeat(posts[0], multiset(follows)[Follow(user, posts[0].author)])
    requires forall p :: multiset(rest)[p] == multiset(posts[1..])[p] * multiset(follows)[Follow(user, p.author)]
    ensures forall p :: multiset(copies + rest)[p] == multiset(posts)[p] * multiset(follows)[Follow(user, p.author)]
    ensures forall p :: p in copies + rest <==> p in posts && Follow(user, p.author) in follows
  {
    assert posts == [posts[0]] + posts[1..];
    forall q ensures multiset(copies + rest)[q] == multiset(posts)[q] * multiset(follows)[Follow(user, q.author)] {
      RowCount(posts, copies, rest, q, multiset(follows)[Follow(user, q.author)]);
    }
    forall q ensures q in copies + rest <==> q in posts && Follow(user, q.author) in follows {
      RowPresent(copies + rest, posts, multiset(follows)[Follow(user, q.author)], q);
    }
  }

  /** A row is present exactly when its count, a product, is positive. */
  lemma RowPresent(rows: seq<Post>, posts: seq<Post>, m: nat, q: Post)
    requires multiset(rows)[q] == multiset(posts)[q] * m
    ensures q in rows <==> q in posts && m > 0
  {
    assert q in rows <==> q in multiset(rows);
    assert q in posts <==> q in multiset(posts);
    ProductPositive(multiset(posts)[q], m);
  }

  lemma RowCount(posts: seq<Post>, copies: seq<Post>, rest: seq<Post>, q: Post, m: nat)
    requires posts != [] && posts == [posts[0]] + posts[1..]
    requires multiset(copies)[q] == if q == posts[0] then m else 0
    requires multiset(rest)[q] == multiset(posts[1..])[q] * m
    ensures multiset(copies + rest)[q] == multiset(posts)[q] * m
  {
    var k := multiset(posts[1..])[q];
    if q == posts[0] {
      assert multiset(posts)[q] == k + 1;
      assert (k + 1) * m == k * m + m;
    } else {
      assert multiset(posts)[q] == k;
    }
  }

  lemma ProductPositive(k: nat, m: nat)
    ensures k * m > 0 <==> k > 0 && m > 0
  {
    if k > 0 && m > 0 {
      assert k * m >= m;
    }
  }

  /** `n` copies of `p`. */
  function Repeat(p: Post, n: nat): (r: seq<Post>)
    ensures |r| == n
    ensures forall q :: q in r <==> n > 0 && q == p
    ensures forall q :: multiset(r)[q] == if q == p then n else 0
  {
    if n == 0 then [] else [p] + Repeat(p, n - 1)
  }

  function FollowedBy(follows: seq<Follow>, user: UserId): Post -> bool {
    (p: Post) => Follow(user, p.author) in follows
  }

  /** With no duplicate edges the join is a plain filter: each post of a
      followed author exactly once. */
  lemma {:induction false} FeedRowsOfDistinctEdges(posts: seq<Post>, follows: seq<Follow>, user: UserId)
    requires Distinct(follows)
    ensures FeedRows(posts, follows, user) == Filter(posts, FollowedBy(follows, user))
  {
    if posts != [] {
      var p := posts[0];
      DistinctCount(follows, Follow(user, p.author));
      FeedRowsOfDistinctEdges(posts[1..], follows, user);
      var copies := Repeat(p, multiset(follows)[Follow(user, p.author)]);
      if Follow(user, p.author) in follows {
        assert copies == [p];
      } else {
        assert copies == [];
      }
    }
  }

  /** follow_index's listing: the joined rows, oldest first. */
  function FeedListing(db: Db, user: UserId): (r: seq<Post>)
    ensures multiset(r) == multiset(FeedRows(db.posts, db.follows, user))
    ensures Sorted(r)
    ensures forall p :: p in r <==> p in db.posts && Follow(user, p.author) in db.follows
  {
    var rows := FeedRows(db.posts, db.follows, user);
    var r := OrderByDate(rows);
    SameMembers(r, rows);
    r
  }

  /** In a valid store the feed holds each post of a followed author exactly
      as often as the store does, and no other post. */
  lemma FeedIsFollowedPosts(db: Db, user: UserId, p: Post)
    requires Valid(db)
    ensures multiset(FeedListing(db, user))[p]
      == if Follow(user, p.author) in db.follows then multiset(db.posts)[p] else 0
  {
    FeedRowsOfDistinctEdges(db.posts, db.follows, user);
    FilterCount(db.posts, FollowedBy(db.follows, user), p);
  }

  /** follow_index: login required; the posts of the authors the user follows, ten to a page. */
  function FollowIndex(db: Db, user: Option<UserId>, page: Option<int>): (r: Response)
    ensures user.None? <==> r == LoginRedirect(FollowIndexRoute)
    ensures user.Some? ==> r.Render? && r.view.FeedView?
    ensures user.Some? ==> r.view.page == Paginate(FeedListing(db, user.value), page)
    ensures user.Some? ==> forall p :: p in r.view.page.items ==>
      p in db.posts && Follow(user.value, p.author) in db.follows
    ensures user.Some? ==> |r.view.page.items| <= PerPage && Sorted(r.view.page.items)
  {
    match user
    case None => LoginRedirect(FollowIndexRoute)
    case Some(u) =>
      var all := FeedListing(db, u);
      PageSorted(all, page);
      PageFromListing(all, page);
      Render(FeedView(Paginate(all, page)))
  }

  // ---- Writes, as step functions ----

  /** A handler's response together with the database it leaves behind. */
  datatype Outcome = Outcome(response: Response, db: Db)

  function NewImage(f: ImageField): Option<Image> {
    ImageAfter(None, f)
  }

  predicate SubmitsValidPost(db: Db, verb: RequestMethod, data: Option<PostFormData>) {
    verb == PostRequest && data.Some? && PostFormValid(db, data.value)
  }

  /** new_post: login required; a valid POST adds exactly one post, by the
      signed-in user, dated `now`, and redirects to the index; a GET or an
      invalid form shows the form again and adds nothing. */
  function NewPostStep(db: Db, user: Option<UserId>, verb: RequestMethod, data: Option<PostFormData>, now: nat): (r: Outcome)
    ensures user.None? ==> r == Outcome(LoginRedirect(NewPostRoute), db)
    ensures user.Some? && !SubmitsValidPost(db, verb, data) ==> r == Outcome(Render(NewPostForm), db)
    ensures user.Some? && SubmitsValidPost(db, verb, data) ==>
      && r.response == Redirect(IndexRoute)
      && |r.db.posts| == |db.posts| + 1
      && r.db.posts[..|db.posts|] == db.posts
      && r.db.posts[|db.posts|].id == db.nextPostId
      && r.db.posts[|db.posts|].author == user.value
      && r.db.posts[|db.posts|].pubDate == now
      && r.db.posts[|db.posts|].text == data.value.text
      && r.db.posts[|db.posts|].group == data.value.group
      && r.db.posts[|db.posts|].image == NewImage(data.value.image)
      && r.db == db.(posts := r.db.posts, nextPostId := db.nextPostId + 1)
  {
    if user.None? then Outcome(LoginRedirect(NewPostRoute), db)
    else if SubmitsValidPost(db, verb, data) then
      var f := data.value;
      var p := Post(db.nextPostId, f.text, now, user.value, f.group, NewImage(f.image));
      Outcome(Redirect(IndexRoute), db.(posts := db.posts + [p], nextPostId := db.nextPostId + 1))
    else Outcome(Render(NewPostForm), db)
  }

  /** The post as a valid edit form saves it: group, text and image change,
      id, author and date stay. */
  function Edited(p: Post, f: PostFormData): (r: Post)
    ensures r.id == p.id && r.author == p.author && r.pubDate == p.pubDate
    ensures r.text == f.text && r.group == f.group && r.image == ImageAfter(p.image, f.image)
  {
    p.(text := f.text, group := f.group, image := ImageAfter(p.image, f.image))
  }

  /** post_edit: login required; NotFound for an unknown (username, id); a
      visitor who is not the author is sent to the post unchanged; the
      author's valid form replaces that one post's editable fields. */
  function PostEditStep(db: Db, user: Option<UserId>, username: string, id: PostId, data: Option<PostFormData>): (r: Outcome)
    ensures user.None? ==> r == Outcome(LoginRedirect(PostEditRoute(username, id)), db)
    ensures user.Some? ==> (r.response.NotFound? <==> LookupPost(db, username, id).None?)
    ensures r.response.NotFound? ==> r.db == db
    ensures user.Some? && LookupPost(db, username, id).Some? ==>
      var i := LookupPost(db, username, id).value.0;
      var post := db.posts[i];
      && (post.author != user.value ==> r == Outcome(Redirect(PostRoute(username, id)), db))
      && (post.author == user.value && (data.None? || !PostFormValid(db, data.value)) ==>
            r == Outcome(Render(EditPostForm(post)), db))
      && (post.author == user.value && data.Some? && PostFormValid(db, data.value) ==>
            && r.response == Redirect(PostRoute(username, id))
            && |r.db.posts| == |db.posts|
            && r.db.posts[i] == Edited(post, data.value)
            && (forall j :: 0 <= j < |db.posts| && j != i ==> r.db.posts[j] == db.posts[j])
            && r.db == db.(posts := r.db.posts))
  {
    if user.None? then Outcome(LoginRedirect(PostEditRoute(username, id)), db)
    else match LookupPost(db, username, id)
      case None => Outcome(NotFound, db)
      case Some((i, _)) =>
        var post := db.posts[i];
        if user.value != post.author then Outcome(Redirect(PostRoute(username, id)), db)
        else if data.Some? && PostFormValid(db, data.value) then
          Outcome(Redirect(PostRoute(username, id)), db.(posts := db.posts[i := Edited(post, data.value)]))
        else Outcome(Render(EditPostForm(post)), db)
  }

  /** add_comment: login required; NotFound for an unknown (username, id);
      valid text appends exactly one comment on that post by the signed-in
      user, dated `now`; either way the response goes back to the post. */
  function AddCommentStep(db: Db, user: Option<UserId>, username: string, id: PostId, text: Option<string>, now: nat): (r: Outcome)
    ensures user.None? ==> r == Outcome(LoginRedirect(CommentRoute(username, id)), db)
    ensures user.Some? ==> (r.response.NotFound? <==> LookupPost(db, username, id).None?)
    ensures r.response.NotFound? ==> r.db == db
    ensures user.Some? && LookupPost(db, username, id).Some? ==>
      && r.response == Redirect(PostRoute(username, id))
      && (text.None? || !CommentFormValid(text.value) ==> r.db == db)
      && (text.Some? && CommentFormValid(text.value) ==>
            r.db == db.(comments := db.comments + [Comment(db.nextCommentId, id, user.value, text.value, now)],
                        nextCommentId := db.nextCommentId + 1))
  {
    if user.None? then Outcome(LoginRedirect(CommentRoute(username, id)), db)
    else match LookupPost(db, username, id)
      case None => Outcome(NotFound, db)
      case Some((i, _)) =>
        var post := db.posts[i];
        if text.Some? && CommentFormValid(text.value) then
          var c := Comment(db.nextCommentId, post.id, user.value, text.value, now);
          Outcome(Redirect(PostRoute(username, post.id)),
                  db.(comments := db.comments + [c], nextCommentId := db.nextCommentId + 1))
        else Outcome(Redirect(PostRoute(username, post.id)), db)
  }

  /** profile_follow: login required; NotFound for an unknown username;
      following yourself does nothing; otherwise get-or-create the edge,
      which fails if the edge is already stored more than once. */
  function FollowStep(db: Db, user: Option<UserId>, username: string): (r: Outcome)
    ensures user.None? ==> r == Outcome(LoginRedirect(FollowRoute(username)), db)
    ensures user.Some? ==> (r.response.NotFound? <==> FindUser(db.users, username).None?)
    ensures r.response.NotFound? ==> r.db == db
    ensures r.db == db || r.db == db.(follows := r.db.follows)
    ensures r.response.Redirect? ==> r.response == Redirect(ProfileRoute(username))
    ensures user.Some? && FindUser(db.users, username).Some? ==>
      var e := Follow(user.value, FindUser(db.users, username).value.id);
      && (e.user == e.author ==> r == Outcome(Redirect(ProfileRoute(username)), db))
      && (e.user != e.author && multiset(db.follows)[e] == 0 ==>
            r == Outcome(Redirect(ProfileRoute(username)), db.(follows := db.follows + [e])))
      && (e.user != e.author && multiset(db.follows)[e] == 1 ==> r == Outcome(Redirect(ProfileRoute(username)), db))
      && (e.user != e.author && multiset(db.follows)[e] > 1 ==> r == Outcome(ServerError, db))
      && (e.user != e.author && r.response.Redirect? ==> multiset(r.db.follows)[e] == 1)
  {
    if user.None? then Outcome(LoginRedirect(FollowRoute(username)), db)
    else match FindUser(db.users, username)
      case None => Outcome(NotFound, db)
      case Some(author) =>
        if user.value == author.id then Outcome(Redirect(ProfileRoute(author.username)), db)
        else
          var e := Follow(user.value, author.id);
          var n := multiset(db.follows)[e];
          if n == 0 then Outcome(Redirect(ProfileRoute(author.username)), db.(follows := db.follows + [e]))
          else if n == 1 then Outcome(Redirect(ProfileRoute(author.username)), db)
          else Outcome(ServerError, db)
  }

  /** profile_unfollow: login required; NotFound for an unknown username;
      exactly one matching edge is deleted, and none or several is an
      uncaught error that changes nothing. */
  function UnfollowStep(db: Db, user: Option<UserId>, username: string): (r: Outcome)
    ensures user.None? ==> r == Outcome(LoginRedirect(UnfollowRoute(username)), db)
    ensures user.Some? ==> (r.response.NotFound? <==> FindUser(db.users, username).None?)
    ensures r.response.NotFound? ==> r.db == db
    ensures r.db == db || r.db == db.(follows := r.db.follows)
    ensures user.Some? && FindUser(db.users, username).Some? ==>
      var e := Follow(user.value, FindUser(db.users, username).value.id);
      && (multiset(db.follows)[e] != 1 ==> r == Outcome(ServerError, db))
      && (multiset(db.follows)[e] == 1 ==>
            && r.response == Redirect(ProfileRoute(username))
            && multiset(r.db.follows) == multiset(db.follows) - multiset{e}
            && |r.db.follows| == |db.follows| - 1
            && e !in r.db.follows)
  {
    if user.None? then Outcome(LoginRedirect(UnfollowRoute(username)), db)
    else match FindUser(db.users, username)
      case None => Outcome(NotFound, db)
      case Some(author) =>
        var e := Follow(user.value, author.id);
        if multiset(db.follows)[e] != 1 then Outcome(ServerError, db)
        else
          var i := IndexOf(db.follows, (x: Follow) => x == e).value;
          var rest := db.follows[..i] + db.follows[i + 1..];
          assert db.follows == db.follows[..i] + [e] + db.follows[i + 1..];
          Outcome(Redirect(ProfileRoute(author.username)), db.(follows := rest))
  }

  // ---- What the writes preserve and how they compose ----

  lemma NewPostKeepsValid(db: Db, user: Option<UserId>, verb: RequestMethod, data: Option<PostFormData>, now: nat)
    requires Valid(db) && KnownUser(db, user)
    ensures Valid(NewPostStep(db, user, verb, data, now).db)
  {
    var nd := NewPostStep(db, user, verb, data, now).db;
    if nd != db {
      var n := |db.posts|;
      assert nd.posts == db.posts + [nd.posts[n]];
      forall i, j | 0 <= i < j < |nd.posts| ensures nd.posts[i].id != nd.posts[j].id {
        if j == n {
          assert PostRefsOk(db, db.posts[i]);
        } else {
          assert ((q: Post) => q.id)(db.posts[i]) != ((q: Post) => q.id)(db.posts[j]);
        }
      }
      assert UserIds(nd) == UserIds(db) && GroupIds(nd) == GroupIds(db);
      assert PostIds(db) <= PostIds(nd);
      forall q | q in nd.posts ensures PostRefsOk(nd, q) {
        if q in db.posts {
          assert PostRefsOk(db, q);
        }
      }
      forall c | c in nd.comments ensures CommentRefsOk(nd, c) {
        assert CommentRefsOk(db, c);
      }
    }
  }

  lemma PostEditKeepsValid(db: Db, user: Option<UserId>, username: string, id: PostId, data: Option<PostFormData>)
    requires Valid(db)
    ensures Valid(PostEditStep(db, user, username, id, data).db)
  {
    var nd := PostEditStep(db, user, username, id, data).db;
    if nd != db {
      var i := LookupPost(db, username, id).value.0;
      assert nd.posts == db.posts[i := nd.posts[i]];
      assert forall j :: 0 <= j < |db.posts| ==> nd.posts[j].id == db.posts[j].id;
      forall j, k | 0 <= j < k < |nd.posts| ensures nd.posts[j].id != nd.posts[k].id {
        assert ((q: Post) => q.id)(db.posts[j]) != ((q: Post) => q.id)(db.posts[k]);
      }
      assert PostIds(nd) == PostIds(db) by {
        forall x | x in PostIds(db) ensures x in PostIds(nd) {
          var j :| 0 <= j < |db.posts| && db.posts[j].id == x;
          assert nd.posts[j] in nd.posts;
        }
      }
      assert UserIds(nd) == UserIds(db) && GroupIds(nd) == GroupIds(db);
      forall q | q in nd.posts ensures PostRefsOk(nd, q) {
        var j :| 0 <= j < |nd.posts| && nd.posts[j] == q;
        assert PostRefsOk(db, db.posts[j]);
      }
      forall c | c in nd.comments ensures CommentRefsOk(nd, c) {
        assert CommentRefsOk(db, c);
      }
    }
  }

  lemma AddCommentKeepsValid(db: Db, user: Option<UserId>, username: string, id: PostId, text: Option<string>, now: nat)
    requires Valid(db) && KnownUser(db, user)
    ensures Valid(AddCommentStep(db, user, username, id, text, now).db)
  {
    var nd := AddCommentStep(db, user, username, id, text, now).db;
    if nd != db {
      var n := |db.comments|;
      assert nd.comments == db.comments + [nd.comments[n]];
      forall i, j | 0 <= i < j < |nd.comments| ensures nd.comments[i].id != nd.comments[j].id {
        if j == n {
          assert CommentRefsOk(db, db.comments[i]);
        } else {
          assert ((c: Comment) => c.id)(db.comments[i]) != ((c: Comment) => c.id)(db.comments[j]);
        }
      }
      var i := LookupPost(db, username, id).value.0;
      assert db.posts[i] in db.posts;
      forall q | q in nd.posts ensures PostRefsOk(nd, q) {
        assert PostRefsOk(db, q);
      }
      forall c | c in nd.comments ensures CommentRefsOk(nd, c) {
        if c in db.comments {
          assert CommentRefsOk(db, c);
        }
      }
    }
  }

  /** One follow request on a valid store never stores a second copy of an edge, so
      get-or-create keeps edges unique in any sequence of requests served one at a
      time: the invariant the schema leaves to the handler. */
  lemma FollowKeepsValid(db: Db, user: Option<UserId>, username: string)
    requires Valid(db) && KnownUser(db, user)
    ensures Valid(FollowStep(db, user, username).db)
  {
    var nd := FollowStep(db, user, username).db;
    if nd != db {
      var e := Follow(user.value, FindUser(db.users, username).value.id);
      assert nd.follows == db.follows + [e];
      assert e !in db.follows;
      forall i, j | 0 <= i < j < |nd.follows| ensures nd.follows[i] != nd.follows[j] {
        if j == |db.follows| {
          assert nd.follows[i] in db.follows;
        } else {
          assert Identity(db.follows[i]) != Identity(db.follows[j]);
        }
      }
      assert Distinct(nd.follows);
      forall q | q in nd.posts ensures PostRefsOk(nd, q) {
        assert PostRefsOk(db, q);
      }
      forall c | c in nd.comments ensures CommentRefsOk(nd, c) {
        assert CommentRefsOk(db, c);
      }
    }
  }

  lemma UnfollowKeepsValid(db: Db, user: Option<UserId>, username: string)
    requires Valid(db)
    ensures Valid(UnfollowStep(db, user, username).db)
  {
    var nd := UnfollowStep(db, user, username).db;
    if nd != db {
      var e := Follow(user.value, FindUser(db.users, username).value.id);
      var i := IndexOf(db.follows, (x: Follow) => x == e).value;
      assert nd.follows == db.follows[..i] + db.follows[i + 1..];
      DeleteAtDistinct(db.follows, i);
      forall q | q in nd.posts ensures PostRefsOk(nd, q) {
        assert PostRefsOk(db, q);
      }
      forall c | c in nd.comments ensures CommentRefsOk(nd, c) {
        assert CommentRefsOk(db, c);
      }
    }
  }

  /** Following twice is following once: same response, no second edge. */
  lemma FollowIdempotent(db: Db, user: Option<UserId>, username: string)
    ensures FollowStep(FollowStep(db, user, username).db, user, username) == FollowStep(db, user, username)
  {
    var first := FollowStep(db, user, username);
    if user.Some? && FindUser(db.users, username).Some? {
      var e := Follow(user.value, FindUser(db.users, username).value.id);
      if e.user != e.author && multiset(db.follows)[e] == 0 {
        assert first.db.users == db.users;
        assert multiset(first.db.follows)[e] == 1;
      }
    }
  }

  /** After a successful follow of someone else, their profile shows `following`. */
  lemma FollowThenProfile(db: Db, user: UserId, username: string, page: Option<int>)
    requires FindUser(db.users, username).Some? && FindUser(db.users, username).value.id != user
    requires FollowStep(db, Some(user), username).response.Redirect?
    ensures Profile(FollowStep(db, Some(user), username).db, Some(user), username, page).view.following
  {
    var nd := FollowStep(db, Some(user), username).db;
    var e := Follow(user, FindUser(db.users, username).value.id);
    assert multiset(nd.follows)[e] == 1;
    assert nd.users == db.users;
  }

  /** After a successful unfollow, the profile no longer shows `following`. */
  lemma UnfollowThenProfile(db: Db, user: UserId, username: string, page: Option<int>)
    requires FindUser(db.users, username).Some?
    requires UnfollowStep(db, Some(user), username).response.Redirect?
    ensures !Profile(UnfollowStep(db, Some(user), username).db, Some(user), username, page).view.following
  {
    assert UnfollowStep(db, Some(user), username).db.users == db.users;
  }

  /** Unfollowing right after a follow that created the edge restores the store exactly. */
  lemma FollowUnfollowRoundTrip(db: Db, user: UserId, username: string)
    requires FindUser(db.users, username).Some? && FindUser(db.users, username).value.id != user
    requires Follow(user, FindUser(db.users, username).value.id) !in db.follows
    ensures FollowStep(db, Some(user), username).response == Redirect(ProfileRoute(username))
    ensures UnfollowStep(FollowStep(db, Some(user), username).db, Some(user), username)
      == Outcome(Redirect(ProfileRoute(username)), db)
  {
    var e := Follow(user, FindUser(db.users, username).value.id);
    var mid := FollowStep(db, Some(user), username).db;
    assert mid.follows == db.follows + [e];
    assert multiset(mid.follows)[e] == 1;
    var i := IndexOf(mid.follows, (x: Follow) => x == e).value;
    assert i == |db.follows|;
    assert mid.follows[..i] + mid.follows[i + 1..] == db.follows;
  }

  // ---- The store, updated in place ----

  /** The database as the handlers see it: tables they read and append to,
      rows they replace and delete, and the two id sequences. */
  class Store {
    var users: seq<User>
    var groups: seq<Group>
    var posts: seq<Post>
    var comments: seq<Comment>
    var follows: seq<Follow>
    var nextPostId: PostId
    var nextCommentId: CommentId

    function State(): Db
      reads this
    {
      Db(users, groups, posts, comments, follows, nextPostId, nextCommentId)
    }

    ghost predicate Valid()
      reads this
    {
      Models.Valid(State())
    }

    /** A store holding the given accounts and groups and no content yet. */
    constructor (users: seq<User>, groups: seq<Group>)
      requires Models.Valid(Db(users, groups, [], [], [], 0, 0))
      ensures Valid() && State() == Db(users, groups, [], [], [], 0, 0)
    {
      this.users := users;
      this.groups := groups;
      posts, comments, follows := [], [], [];
      nextPostId, nextCommentId := 0, 0;
    }

    method NewPost(user: Option<UserId>, verb: RequestMethod, data: Option<PostFormData>, now: nat)
      returns (r: Response)
      requires Valid() && KnownUser(State(), user)
      modifies this
      ensures Valid()
      ensures Outcome(r, State()) == NewPostStep(old(State()), user, verb, data, now)
    {
      NewPostKeepsValid(State(), user, verb, data, now);
      if user.None? {
        return LoginRedirect(NewPostRoute);
      }
      if verb == PostRequest && data.Some? && PostFormValid(State(), data.value) {
        var f := data.value;
        posts := posts + [Post(nextPostId, f.text, now, user.value, f.group, NewImage(f.image))];
        nextPostId := nextPostId + 1;
        return Redirect(IndexRoute);
      }
      return Render(NewPostForm);
    }

    method PostEdit(user: Option<UserId>, username: string, id: PostId, data: Option<PostFormData>)
      returns (r: Response)
      requires Valid()
      modifies this
      ensures Valid()
      ensures Outcome(r, State()) == PostEditStep(old(State()), user, username, id, data)
    {
      PostEditKeepsValid(State(), user, username, id, data);
      if user.None? {
        return LoginRedirect(PostEditRoute(username, id));
      }
      var found := LookupPost(State(), username, id);
      if found.None? {
        return NotFound;
      }
      var i := found.value.0;
      var post := posts[i];
      if user.value != post.author {
        return Redirect(PostRoute(username, id));
      }
      if data.Some? && PostFormValid(State(), data.value) {
        posts := posts[i := Edited(post, data.value)];
        return Redirect(PostRoute(username, id));
      }
      return Render(EditPostForm(post));
    }

    method AddComment(user: Option<UserId>, username: string, id: PostId, text: Option<string>, now: nat)
      returns (r: Response)
      requires Valid() && KnownUser(State(), user)
      modifies this
      ensures Valid()
      ensures Outcome(r, State()) == AddCommentStep(old(State()), user, username, id, text, now)
    {
      AddCommentKeepsValid(State(), user, username, id, text, now);
      if user.None? {
        return LoginRedirect(CommentRoute(username, id));
      }
      var found := LookupPost(State(), username, id);
      if found.None? {
        return NotFound;
      }
      var post := posts[found.value.0];
      if text.Some? && CommentFormValid(text.value) {
        comments := comments + [Comment(nextCommentId, post.id, user.value, text.value, now)];
        nextCommentId := nextCommentId + 1;
      }
      return Redirect(PostRoute(username, post.id));
    }

    method ProfileFollow(user: Option<UserId>, username: string) returns (r: Response)
      requires Valid() && KnownUser(State(), user)
      modifies this
      ensures Valid()
      ensures Outcome(r, State()) == FollowStep(old(State()), user, username)
    {
      FollowKeepsValid(State(), user, username);
      if user.None? {
        return LoginRedirect(FollowRoute(username));
      }
      var author := FindUser(users, username);
      if author.None? {
        return NotFound;
      }
      if user.value != author.value.id {
        var e := Follow(user.value, author.value.id);
        var n := multiset(follows)[e];
        if n == 0 {
          follows := follows + [e];
        } else if n > 1 {
          return ServerError;
        }
      }
      return Redirect(ProfileRoute(author.value.username));
    }

    method ProfileUnfollow(user: Option<UserId>, username: string) returns (r: Response)
      requires Valid()
      modifies this
      ensures Valid()
      ensures Outcome(r, State()) == UnfollowStep(old(State()), user, username)
    {
      UnfollowKeepsValid(State(), user, username);
      if user.None? {
        return LoginRedirect(UnfollowRoute(username));
      }
      var author := FindUser(users, username);
      if author.None? {
        return NotFound;
      }
      var e := Follow(user.value, author.value.id);
      if multiset(follows)[e] != 1 {
        return ServerError;
      }
      ghost var before := State();
      var i := IndexOf(follows, (x: Follow) => x == e).value;
      follows := follows[..i] + follows[i + 1..];
      r := Redirect(ProfileRoute(author.value.username));
      assert UnfollowStep(before, user, username) == Outcome(r, before.(follows := follows));
    }
  }
}
