# Posts app, modelled in Dafny

A model of the posts app of a small Django blogging site. Users write posts,
optionally in a group and with an image, and comment on posts. They also
follow other authors and read a feed of the authors they follow.

The model has four modules:

- `Collections` (collections.dfy): the query primitives the ORM provides,
  over sequences.
  - `Filter` keeps the matching rows in order.
  - `IndexOf` finds the first match.
  - `KeysDistinct` states that a primary key or unique column is unique.
- `Models` (models.dfy): the records and the rules around them.
  - The records: `User`, `Group`, `Post`, `Comment`, `Follow`.
  - The database value `Db`, which holds them.
  - `Consistent`: what the schema enforces.
  - `Valid`: `Consistent` plus the one invariant the handlers keep in any
    sequence of requests served one at a time, that no follow edge is
    stored twice.
  - The lookups behind `get_object_or_404`.
  - The `__str__` forms.
  - The `on_delete` rules: CASCADE and SET_NULL.
- `Listing` (listing.dfy): `order_by('pub_date')` as a stable insertion
  sort, and Django's `Paginator(..., 10).get_page(number)`.
- `Views` (views.dfy): the request handlers.
  - The read-only handlers (`index`, `group_posts`, `profile`,
    `post_view`, `follow_index`) are functions of the database. Each
    returns a `Response`: a rendered view, a redirect, a login redirect,
    NotFound, or ServerError for an uncaught exception.
  - The writing handlers (`new_post`, `post_edit`, `add_comment`,
    `profile_follow`, `profile_unfollow`) are step functions. Each maps the
    old database to an `Outcome` holding the response and the new database.
  - Those same handlers are also methods of the class `Store`, which holds
    the tables as fields and updates them in place. Each method is proved
    to produce exactly what its step function gives, and to keep `Valid`.

The request is reduced to what the handlers read:

- the signed-in user, `Option<UserId>`, where `None` is a guest;
- the HTTP verb;
- the form data;
- the `page` query parameter (`None` when missing or not an integer);
- the current time `now`, stamped on new posts and comments.

`Paginator.get_page` returns the last page for every out-of-range number,
including 0 and negative numbers; `Listing.PageNumber` models this.

`profile_unfollow` calls `Follow.objects.get(...)`, so unfollowing an
author the user does not follow raises `DoesNotExist`, an uncaught server
error. The model keeps that behaviour as written
(`Views.UnfollowStep` answers `ServerError`).

## Model

| member | source | states |
|---|---|---|
| Collections.Filter | posts/views.py:18 | `filter(...)`: the result holds exactly the rows that satisfy the condition and is no longer than the table |
| Collections.FilterCount | posts/views.py:18 | filtering keeps every occurrence of a matching row and drops every non-matching row (multiset count) |
| Collections.IndexOf | posts/views.py:39 | the first row satisfying the lookup condition; None exactly when no row does |
| Collections.FilterKeysDistinct | posts/models.py:11 | filtering a table cannot break a unique column |
| Collections.KeyDetermines | posts/models.py:11 | in a table with a unique column, two rows with the same value in it are the same row |
| Collections.DeleteAtDistinct | posts/views.py:124 | deleting one row from a duplicate-free table keeps it duplicate-free and adds no row |
| Collections.DistinctCount | posts/views.py:117 | in a duplicate-free table a row is stored at most once, which is what `get_or_create` needs |
| Models.DuplicateEdgesAllowed | posts/models.py:38-40 | the Follow table has no uniqueness constraint: a schema-consistent database can hold the same edge twice |
| Models.FindUser | posts/views.py:39 | `get_object_or_404(User, username=...)`: a user with that username, None exactly when there is none |
| Models.FindGroup | posts/views.py:17 | `get_object_or_404(Group, slug=...)`: a group with that slug, None exactly when there is none |
| Models.GroupBySlugUnique | posts/models.py:11 | slug is unique, so the group found is the only one with that slug |
| Models.LookupPost | posts/views.py:60 | the lookup `author__username=username, id=post_id`: the post found has that id and an author with that username, who is returned with it; with unique usernames, None exactly when no post matches |
| Models.PostLookupUnique | posts/views.py:60 | with primary keys in place, at most one post matches a (username, id) lookup |
| Models.PostLabel | posts/models.py:27-28 | a post is shown as a prefix of its text of length min(len(text), 15) |
| Models.GroupLabel | posts/models.py:14-15 | a group is shown as its title |
| Models.FollowLabel | posts/models.py:42-43 | a follow edge is shown as the username of the followed author; absent exactly when that author does not exist |
| Models.FollowLabelOfValid | posts/models.py:42-43 | in a consistent database every stored edge has a label |
| Models.DeletePost | posts/models.py:32 | deleting a post deletes exactly its comments (CASCADE); every other table and both id sequences are untouched |
| Models.DeleteUser | posts/models.py:21 | deleting a user deletes their posts, their comments, the comments on their posts and every edge on either end (CASCADE); groups and both id sequences are untouched |
| Models.DeleteGroup | posts/models.py:22-24 | deleting a group keeps every post in place and nulls the group of exactly its posts (SET_NULL); every other table and both id sequences are untouched |
| Models.DeletePostKeepsValid | posts/models.py:31-33 | the post cascade leaves no dangling reference and keeps every key unique |
| Models.DeleteUserKeepsValid | posts/models.py:18-21 | the user cascade leaves no dangling reference and keeps every key unique |
| Models.DeleteGroupKeepsValid | posts/models.py:22-24 | SET_NULL leaves no post pointing to a deleted group and keeps every key unique |
| Listing.Insert | posts/views.py:9 | inserting a post into an ordered listing adds exactly that post and keeps the listing ordered by date |
| Listing.OrderByDate | posts/views.py:9 | `order_by('pub_date')`: ascending dates, a permutation of the input |
| Listing.FilterInsert | posts/views.py:18 | filtering an ordered listing commutes with inserting one post into it |
| Listing.FilterOrderCommute | posts/views.py:18 | ordering then filtering (as group_posts does) equals filtering then ordering |
| Listing.NumPages | posts/views.py:10 | the page count is 1 for no posts, and otherwise the least n with count <= 10n |
| Listing.PageNumber | posts/views.py:11-12 | `get_page`: a missing number gives page 1, a number in range is kept, any other number (0, negative, too large) gives the last page |
| Listing.Paginate | posts/views.py:10-12 | a page is the slice of at most 10 consecutive posts starting at 10(k-1), full unless it is the last; k is the requested page when in range, 1 when none is given, the last page otherwise |
| Listing.EveryPostOnItsPage | posts/views.py:10-12 | the post at position i is on page i/10+1 at position i mod 10 |
| Listing.FirstPageFull | posts/tests/test_views.py:69-76 | ten or more posts fill the first page; twelve posts leave two on page 2 |
| Listing.PageFromListing | posts/views.py:12 | a page holds only posts of its listing |
| Listing.PageSorted | posts/views.py:12 | every page of an ordered listing is ordered |
| Views.Index | posts/views.py:8-13 | index renders page k of all posts ordered by date (the paginated `OrderByDate` of the store), so it is ordered, holds only stored posts, and is full when no page is asked for and there are ten or more posts |
| Views.IndexShowsEveryPost | posts/views.py:8-13 | every stored post appears on some index page |
| Views.GroupListing | posts/views.py:18 | the group listing is exactly the group's posts, in date order, and equals ordering the filtered posts |
| Views.GroupListingCounts | posts/tests/test_views.py:141-160 | a group page holds each post of the group as often as it is stored, and no post of another group |
| Views.GroupPosts | posts/views.py:16-22 | NotFound exactly when no group has the slug; otherwise that group and a page of its posts in date order |
| Views.ProfileListing | posts/views.py:40 | the author's listing is their posts filtered then ordered by date: ordered, and holding exactly their posts |
| Views.Profile | posts/views.py:38-56 | NotFound exactly when no user has the username; `following` holds exactly for a signed-in visitor who is not the author and has an edge to them |
| Views.CommentsOn | posts/views.py:61 | exactly the comments on the post, each as often as it is stored |
| Views.PostView | posts/views.py:59-64 | NotFound exactly when no post matches; otherwise the matching post, its author and the comments on it (`CommentsOn`) |
| Views.FeedRows | posts/views.py:106 | the join `author__following__user`: each post appears once per edge from the user to its author, so it is present exactly when its author is followed |
| Views.FeedRowsOfDistinctEdges | posts/views.py:106 | with no duplicate edges the join equals a plain filter |
| Views.FeedListing | posts/views.py:106 | the feed is the join's rows reordered by date: the same rows with the same repetitions, sorted, holding exactly the posts of followed authors |
| Views.FeedIsFollowedPosts | posts/tests/test_views.py:286-308 | in a valid store the feed holds each post of a followed author as often as it is stored, and no other post |
| Views.FollowIndex | posts/views.py:104-110 | a guest is sent to login; a user gets a page of posts of followed authors only, in date order |
| Views.NewPostStep | posts/views.py:25-35 | guest: login redirect; a valid POST appends exactly one post by the user, dated `now`, with the form's fields, and redirects to the index; otherwise the form again and nothing changes |
| Views.Edited | posts/views.py:72-74 | saving the edit form changes text, group and image and keeps id, author and date |
| Views.PostEditStep | posts/views.py:67-76 | guest: login redirect; no match: NotFound; not the author: redirect to the post with nothing changed; the author's valid form replaces exactly that post |
| Views.AddCommentStep | posts/views.py:94-101 | guest: login redirect; no match: NotFound; valid text appends exactly one comment by the user on that post; the response always goes back to the post |
| Views.FollowStep | posts/views.py:113-118 | guest: login redirect; unknown username: NotFound with the store unchanged; self-follow changes nothing; get_or_create adds the edge when absent, keeps one, fails on duplicates; only the follow table ever changes |
| Views.UnfollowStep | posts/views.py:121-125 | guest: login redirect; unknown username: NotFound with the store unchanged; exactly one edge: that edge is removed; none or several: server error and nothing changes; only the follow table ever changes |
| Views.NewPostKeepsValid | posts/views.py:29-33 | a new post gets a fresh id and refers to an existing author and group |
| Views.PostEditKeepsValid | posts/views.py:72-75 | an edit keeps ids and references valid |
| Views.AddCommentKeepsValid | posts/views.py:98-100 | a new comment gets a fresh id and refers to an existing post and author |
| Views.FollowKeepsValid | posts/views.py:116-117 | one follow request on a valid store never stores a second copy of an edge, so edges stay unique in any sequence of requests served one at a time |
| Views.UnfollowKeepsValid | posts/views.py:124 | deleting an edge keeps the store valid |
| Views.FollowIdempotent | posts/views.py:117 | following twice has the same response and store as following once |
| Views.FollowThenProfile | posts/tests/test_views.py:262-284 | after a successful follow of someone else, their profile shows `following` |
| Views.UnfollowThenProfile | posts/tests/test_views.py:262-284 | after a successful unfollow, the profile does not show `following` |
| Views.FollowUnfollowRoundTrip | posts/tests/test_views.py:262-284 | unfollowing right after a follow that created the edge restores the store exactly |
| Views.Store.constructor | posts/models.py:9-43 | a store with the given accounts and groups, no content, valid |
| Views.Store.NewPost | posts/views.py:25-35 | updates the store in place exactly as `NewPostStep` and keeps it valid |
| Views.Store.PostEdit | posts/views.py:67-76 | updates the store in place exactly as `PostEditStep` and keeps it valid |
| Views.Store.AddComment | posts/views.py:94-101 | updates the store in place exactly as `AddCommentStep` and keeps it valid |
| Views.Store.ProfileFollow | posts/views.py:113-118 | updates the store in place exactly as `FollowStep` and keeps it valid |
| Views.Store.ProfileUnfollow | posts/views.py:121-125 | updates the store in place exactly as `UnfollowStep` and keeps it valid |

## Left out

- Template rendering: a rendered page is modelled only by the context values the handlers compute (`View`).
- The custom 404 and 500 handlers (posts/views.py:79-91): they only choose a template. `NotFound` and `ServerError` stand for their responses.
- The cache on the index page: it changes when a page is recomputed, not what is computed.
- Image decoding and file storage: an upload is a storage name plus a `decodes` flag supplied by the imaging library. File bytes and paths (`upload_to`) are not modelled.
- Form internals beyond required fields and foreign-key checks:
  - whitespace stripping and length limits;
  - the conflict between clearing and uploading an image in one submission;
  - `add_comment` saving the raw `request.POST['text']` rather than the cleaned value, which the model treats as the same string.
- Concurrency: requests are modelled one at a time. `Follow` has no unique constraint, and `get_or_create` is a lookup followed by a separate insert, so two concurrent `profile_follow` requests for the same author can both store the edge. `Valid` holds only for serialized requests. `FollowStep` and `UnfollowStep` still model such a store: every later follow or unfollow of that pair ends in `ServerError` (`MultipleObjectsReturned`).
- Sessions and authentication: the signed-in user is a parameter, and `login_required` is its `None` case.
- Wall-clock time: `auto_now_add` timestamps are the parameter `now`.
- OrderByDate: the database returns posts with equal `pub_date` in no particular order. The model keeps store order for ties, which is one of the orders the database may return. Nothing is proved about any other tie order.
- Django's `Paginator` is library code outside this repository. The model states its documented behaviour: the page count comes from the number of posts, with 10 posts per page.
- Field metadata (`verbose_name`, `help_text`, `max_length`): it has no effect on the handlers. CharField length limits are not enforced by the model.
- Views.Store.constructor: users and groups are created outside the posts app (admin, auth). The store receives them at construction and no handler adds or removes them.
- DeletePost, DeleteUser and DeleteGroup: no handler of the app deletes posts, users or groups, so the cascade rules are pure functions on `Db` with their invariant lemmas, not `Store` methods.
- Integer widths: ids and timestamps are unbounded naturals, since no id overflow is reachable in the app.
