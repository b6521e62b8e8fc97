# Yatube posts: a verified model of the blog's store and handlers

Yatube is a small social blog. Users write posts, which may be tagged with a group and
carry an image. Other users comment on posts. Users follow authors to get a personal
feed. This project models the application logic under the web framework in Dafny:
- an in-memory relational store with the Post, Group, Comment and Follow tables;
- the request handlers that read and write that store;
- the pagination helper.

The web framework itself stays out.

Modules:

- `Wrappers`: `Option`, used for nullable foreign keys and optional fields.
- `Seqs`: table operations on sequences of rows.
  - `Filter` plays the role of a `WHERE` clause.
  - `Reverse`, `Repeat`, and the increasing/decreasing-key predicates support the ordering proofs.
  - Lemmas cover membership, multiplicity, append, update and order preservation.
- `Pagination` (`yatube/posts/utils.py`):
  - The page size `NUM_OF_POSTS = 10`.
  - The page count, the choice of page from the `page` parameter, and the page slice.
  - Proofs that pages hold at most ten items, cover the listing exactly, and put item `i` on page `i/10+1`.
- `Models` (`yatube/posts/models.py`):
  - The four record shapes and `Post.__str__`.
  - The default ordering `-pub_date`: a listing is the matching rows, newest first.
  - Foreign-key integrity (`Integral`).
  - The `on_delete` policies, as pure functions on a table snapshot (`WithoutGroup`, `WithoutPost`, `WithoutUser`), with proofs that each keeps integrity and leaves no dangling reference.
  - `StoreInvariant`: integrity; ids in the group, post and comment tables increase and stay below their counters; post dates increase in creation order; every stamp is below the clock. Proofs show that each deletion keeps it.
- `Database`: the class `Store`, which holds the tables as fields. Its ORM-level methods create, save and delete rows and keep the invariant `Valid()`: referential integrity, unique slugs, fresh increasing ids, and posts stored in increasing `pub_date` order.
- `Views` (`yatube/posts/views.py`):
  - Read-only pages are functions of the store: `Index`, `GroupPosts`, `Profile`, `PostDetail`, `FollowIndex`.
  - Write handlers are methods that may modify only the fields they name: `ProfileFollow`, `ProfileUnfollow`, `PostCreate`, `PostEdit`, `AddComment`.
  - The follow graph transitions `Followed` and `Unfollowed` come with lemmas: the exact edge added, self-follow and repeated follow change nothing, unfollow removes every matching edge, and both keep the graph free of self-edges and duplicates.

Modelling choices:

- Users are addressed by id; a username names exactly one user. A handler's requester is
  an authenticated user that exists in the store.
- `pub_date` and `created` come from one monotone counter, `clock`; ids come from per-table counters.
- The store keeps rows in creation order. A listing is the filtered rows reversed, and
  `ListingNewestFirst` proves that this is the `-pub_date` order.
- Form validation is an opaque `valid` flag. The post form's group field is a choice among
  existing groups, so a post form is accepted when it was submitted, is valid, and names
  no group or an existing one (`Views.Accepted`). The image is the form's final file path or none.
- The follow feed filters across a relation:
  `Post.objects.filter(author__following__user=u)` is an inner join with the Follow table,
  so it holds a post once per matching Follow row. `FeedRows` models that join as written,
  and `FeedRowsMultiplicity` proves the count of each post.
  `FeedRowsWithoutDuplicates` proves it equals the plain filter when the table has no
  duplicate edges. The follow handler never creates a duplicate
  (`FollowKeepsClean`), but the table itself does not forbid one.
- `paginator` relies on Django's `Paginator.get_page`. Django's `Paginator` is not part of
  this model; its contract is modelled with the defaults the helper uses:
  - A missing or non-integer `page` gives page 1.
  - An integer below 1 or above the page count gives the last page. A plain "clamp to the
    nearest page" rule would give page 1 for numbers below 1; the model follows Django's
    code, not that rule.
  - An empty listing still has one, empty, page.

## Model

| member | source | states |
|---|---|---|
| `Pagination.NumPages` | yatube/posts/utils.py:8 | there is at least one page, and the count is the least number of ten-item pages that hold every item; an empty listing has exactly one page |
| `Pagination.PageNumber` | yatube/posts/utils.py:9-10 | the chosen page exists; a missing or non-integer parameter gives page 1; an in-range number is honoured; an out-of-range number gives the last page |
| `Pagination.PageAt` | yatube/posts/utils.py:8-10 | page k holds at most 10 items, exactly min(10, n-(k-1)*10) of them, namely the items at positions (k-1)*10 onward, in input order |
| `Pagination.Paginate` | yatube/posts/utils.py:7-10 | the returned page is the one `PageNumber` selects from the `page` parameter, and its items are exactly `PageAt` of that number: at most 10 items drawn from the listing; with no `page` parameter it is page 1, the first min(10, n) items |
| `Pagination.PageThenRest` | yatube/posts/utils.py:8-10 | page k followed by the items after it is everything from page k's first position on |
| `Pagination.PagesFromSuffix` | yatube/posts/utils.py:8-10 | pages k to last, joined, are exactly the items from position (k-1)*10 on |
| `Pagination.PagesCoverListing` | yatube/posts/utils.py:8-10 | joining pages 1 to last reproduces the listing, with nothing lost, duplicated or reordered |
| `Pagination.ItemOnPage` | yatube/posts/utils.py:8-10 | item i is on page i/10+1 at offset i%10 |
| `Pagination.ThirteenItems` | yatube/posts/utils.py:4-10 | with 13 items, page 1 holds 10 and page 2 holds the last 3 |
| `Models.Str` | yatube/posts/models.py:30-31 | `__str__` is a prefix of the text, of length min(15, len(text)) |
| `Models.Listing` | yatube/posts/models.py:33-35 | a listing holds exactly the stored posts that satisfy its filter, each with the multiplicity it has among the matching rows |
| `Models.DatesIdentifyPosts` | yatube/posts/models.py:11 | when `pub_date` increases with creation, no two stored posts share a date |
| `Models.ListingNewestFirst` | yatube/posts/models.py:33-35 | when `pub_date` increases with creation, every listing is in strictly decreasing `pub_date` order |
| `Models.NewPostLeadsListing` | yatube/posts/models.py:33-35 | a newly created post that matches a filter is first in that listing, ahead of the earlier listing |
| `Models.WithoutGroup` | yatube/posts/models.py:17-23 | the tables after deleting a group (`SET_NULL` on `Post.group`); its properties are proved in `WithoutGroupRows`, `DeleteGroupKeepsIntegrity` and `WithoutGroupKeepsInvariant` |
| `Models.WithoutGroupRows` | yatube/posts/models.py:17-23 | deleting a group removes it and sets matching posts' group to null; every post stays, in place, with its other fields unchanged |
| `Models.DeleteGroupKeepsIntegrity` | yatube/posts/models.py:17-23 | after a group deletion no post refers to that group, every post survives unlinked, and all foreign keys still resolve |
| `Models.WithoutPost` | yatube/posts/models.py:52-56 | the tables after deleting a post (`CASCADE` on `Comment.post`); its properties are proved in `WithoutPostRows`, `DeletePostKeepsIntegrity` and `WithoutPostKeepsInvariant` |
| `Models.WithoutPostRows` | yatube/posts/models.py:52-56 | deleting a post removes it and exactly the comments on it; users, groups and follows are unchanged |
| `Models.DeletePostKeepsIntegrity` | yatube/posts/models.py:52-56 | after a post deletion no comment refers to it and all foreign keys still resolve |
| `Models.WithoutUser` | yatube/posts/models.py:12-78 | the tables after deleting a user (`CASCADE` on all four user keys); its properties are proved in `WithoutUserRows`, `DeleteUserKeepsIntegrity` and `WithoutUserKeepsInvariant` |
| `Models.WithoutUserRows` | yatube/posts/models.py:12-78 | deleting a user removes their posts, their comments, comments on their posts, and every follow edge with them on either side; groups are unchanged |
| `Models.DeleteUserKeepsIntegrity` | yatube/posts/models.py:57-78 | after a user deletion no post, comment or follow edge refers to them and all foreign keys still resolve |
| `Models.WithoutGroupKeepsInvariant` | yatube/posts/models.py:17-23 | deleting a group keeps integrity and the id and date order of the group, post and comment tables |
| `Models.WithoutPostKeepsInvariant` | yatube/posts/models.py:52-56 | deleting a post keeps integrity and the id and date order of the group, post and comment tables |
| `Models.WithoutUserKeepsInvariant` | yatube/posts/models.py:12-78 | deleting a user keeps integrity and the id and date order of the group, post and comment tables |
| `Models.StoreInvariant` | yatube/posts/models.py:7-78 | integrity of every foreign key plus the id, date and counter order of the group, post and comment tables; every `Database.Store` method keeps it (through `Valid`), and the `*KeepsInvariant` lemmas prove that the deletions do |
| `Database.Store.Valid` | yatube/posts/models.py:7-78 | `StoreInvariant` of the store's fields; established by the constructor and kept by every method and handler as a pre- and postcondition |
| `Database.Store.constructor` | yatube/posts/models.py:7-78 | a new store is empty and valid |
| `Database.Store.CreateUser` | yatube/posts/tests/test_views.py:17-19 | an account created out of band joins the user set |
| `Database.Store.CreateGroup` | yatube/posts/models.py:42 | a duplicate slug is refused with no row added; otherwise one group with a fresh id is appended; slugs stay unique |
| `Database.Store.CreatePost` | yatube/posts/models.py:10-28 | one post is appended with a fresh id and the current clock as `pub_date`; the store stays valid |
| `Database.Store.SavePost` | yatube/posts/models.py:10-28 | the post at the index takes the new text, author, group and image; its id and `pub_date` stay |
| `Database.Store.CreateComment` | yatube/posts/models.py:49-63 | one comment is appended on an existing post, with a fresh id and the clock as `created` |
| `Database.Store.CreateFollow` | yatube/posts/models.py:66-78 | one edge is appended; the table accepts any pair of existing users |
| `Database.Store.DeleteFollows` | yatube/posts/models.py:66-78 | the follow table becomes the edges the condition keeps |
| `Database.Store.DeleteGroup` | yatube/posts/models.py:17-23 | the tables become `WithoutGroup` of the old ones, and the store stays valid |
| `Database.Store.DeletePost` | yatube/posts/models.py:52-56 | the tables become `WithoutPost` of the old ones, and the store stays valid |
| `Database.Store.DeleteUser` | yatube/posts/models.py:12-78 | the tables become `WithoutUser` of the old ones, and the store stays valid |
| `Views.Followed` | yatube/posts/views.py:150-153 | the edge set after a follow holds the old edges plus `(requester, target)` exactly when the two differ; its other properties are proved in `FollowAddsEdge`, `FollowSelfIsNoop`, `FollowIdempotent` and `FollowKeepsClean` |
| `Views.FollowAddsEdge` | yatube/posts/views.py:150-153 | following another user with no edge yet adds exactly one `(requester, target)` edge and nothing else |
| `Views.FollowSelfIsNoop` | yatube/posts/views.py:150 | following yourself leaves the edges unchanged |
| `Views.FollowIdempotent` | yatube/posts/views.py:150-153 | when the edge already exists, in any table, a follow changes nothing; a second follow changes nothing; after following someone else the edge exists |
| `Views.FollowKeepsClean` | yatube/posts/views.py:150-153 | the guarded insert never creates a self-edge or a duplicate edge |
| `Views.Unfollowed` | yatube/posts/views.py:162-163 | the edge set after an unfollow holds exactly the old edges other than `(requester, target)`; its other properties are proved in `UnfollowRemovesEdges`, `UnfollowIdempotent`, `UnfollowUndoesFollow` and `UnfollowKeepsClean` |
| `Views.UnfollowRemovesEdges` | yatube/posts/views.py:162-163 | unfollow removes every `(requester, target)` edge, keeps every other edge with its multiplicity, and shrinks the table by the number removed |
| `Views.UnfollowIdempotent` | yatube/posts/views.py:162-163 | repeating unfollow is a no-op |
| `Views.UnfollowUndoesFollow` | yatube/posts/views.py:150-163 | unfollow after a follow that created the edge restores the original table |
| `Views.UnfollowKeepsClean` | yatube/posts/views.py:162-163 | unfollow keeps the graph free of self-edges and duplicates |
| `Views.FindPost` | yatube/posts/views.py:98 | the lookup finds a post with the id exactly when one exists, and 404 otherwise |
| `Views.FindPostUnique` | yatube/posts/views.py:98 | with increasing ids, the found post is the only one with that id |
| `Views.FindGroup` | yatube/posts/views.py:26 | the slug lookup finds a group with that slug exactly when one exists |
| `Views.SlugIdentifiesGroup` | yatube/posts/models.py:42 | with unique slugs, the found group is the only one with that slug |
| `Views.PageNewestFirst` | yatube/posts/utils.py:8-10 | a page cut from a newest-first listing is newest first |
| `Views.PageNewestFirstOrTied` | yatube/posts/utils.py:8-10 | a page cut from a listing in non-increasing date order keeps that order |
| `Views.Index` | yatube/posts/views.py:11-21 | the home page shows a page of all posts, newest first, every one of them stored |
| `Views.GroupPosts` | yatube/posts/views.py:24-34 | an unknown slug gives 404; otherwise the page is the requested page of that group's listing, newest first, via `Paginate`, and it shows only stored posts of that group |
| `Views.Profile` | yatube/posts/views.py:37-56 | an unknown user gives 404; otherwise the page is the requested page of that author's listing, newest first, via `Paginate`. `post_count` is their total number of posts. `following` is true exactly when the visitor is logged in and an edge exists |
| `Views.PostDetail` | yatube/posts/views.py:59-74 | an unknown id gives 404; otherwise the page shows the post with that id, its author's post count, and exactly the comments on that post, each once |
| `Views.FeedRows` | yatube/posts/views.py:134 | the joined feed holds a stored post exactly when the requester follows its author |
| `Views.FeedRowsConsCount` | yatube/posts/views.py:134 | the first stored post contributes one row per matching edge, ahead of the join of the remaining posts |
| `Views.FeedRowsMultiplicity` | yatube/posts/views.py:134 | each post occurs in the join as often as it is stored, times the number of `(requester, author)` edges |
| `Views.FeedRowsWithoutDuplicates` | yatube/posts/views.py:134 | with no duplicate edges, the joined feed is the plain filter by followed author |
| `Views.FeedRowsChronological` | yatube/posts/views.py:134 | when `pub_date` increases with creation, the joined feed rows come in non-decreasing `pub_date` order |
| `Views.FollowIndex` | yatube/posts/views.py:131-142 | for every follow table, the feed is the requested page of the join, newest first; it holds only stored posts by followed authors, and two entries with the same `pub_date` are copies of one post. With no duplicate edges it is the strictly newest-first listing of their posts, paginated |
| `Views.FeedIsExactlyFollowedAuthors` | yatube/posts/views.py:134 | a stored post is in the feed exactly when the requester follows its author, so posts by other authors are excluded |
| `Views.ProfileFollow` | yatube/posts/views.py:145-154 | an unknown target gives 404 and no change; otherwise the edges become `Followed(old)` and the answer redirects to the target's profile; only the follow table may change |
| `Views.ProfileUnfollow` | yatube/posts/views.py:157-164 | an unknown target gives 404 and no change; otherwise the edges become `Unfollowed(old)` and the answer redirects to the profile; only the follow table may change |
| `Views.Accepted` | yatube/posts/views.py:86-87 | a post form is saved when it was submitted, validates, and names no group or an existing one; `PostCreate` and `PostEdit` branch on it |
| `Views.PostCreate` | yatube/posts/views.py:77-92 | an accepted form appends exactly one post, authored by the requester, with the submitted text, group and image, and redirects to the requester's profile; otherwise the form is re-rendered, nothing is stored, and the clock and id counter stay |
| `Views.Edited` | yatube/posts/views.py:110-113 | the saved post keeps its id, `pub_date` and author, and takes the submitted text, group and image |
| `Views.PostEdit` | yatube/posts/views.py:95-116 | an unknown id gives 404. A non-author is redirected to the detail page with posts untouched. The author's accepted form replaces only that post, by `Edited`, and redirects to the detail page. Otherwise the edit form is shown and nothing changes |
| `Views.AddComment` | yatube/posts/views.py:119-128 | an unknown post gives 404. Otherwise the answer is always a redirect to the detail page. A valid form appends exactly one comment with that author and post; an invalid one adds nothing. When nothing is appended, the clock and id counter stay |
| `Views.CreateRaisesPostCount` | yatube/posts/views.py:87-91 | a new post raises its author's post count by exactly one and leaves other authors' counts alone |
| `Views.EditKeepsPostCount` | yatube/posts/views.py:108-116 | an edit that keeps the author leaves every author's post count unchanged |
| `Views.CommentJoinsThread` | yatube/posts/views.py:123-128 | a new comment appears at the end of its post's comments, which grow by exactly one |

## Left out

- Template rendering, template names and context keys other than those modelled: presentation only.
- Authentication and the login redirect of `@login_required`. The requester is an
  existing user passed in, and `Profile` takes the visitor as an optional user.
- Form internals (`PostForm`, `CommentForm`): `forms.py` is not part of this model.
  Validity is an opaque boolean. So the rule that text must be non-empty and the trimming
  of whitespace are inside `valid`, not checked by the model.
- The page cache of the home page: framework middleware configured elsewhere, and time based.
- Image upload and file storage: the image is an optional path string.
- Real timestamps: `auto_now_add` is a monotone counter.
- The migration file: generated schema tooling.
- Concurrency. The check-then-insert in `profile_follow` can race and insert duplicates.
  The handlers are modelled one at a time. A duplicate edge such a race leaves behind is still
  covered: the feed is specified for any follow table.
- Usernames: a user is identified by id, and the username-to-user lookup is the membership test `username in users`.
- The auto-increment id of the Follow table: no code reads it, so a follow row is the
  `(user, author)` pair alone.
- `Group.__str__` (returns the title) and Django's previous/next page metadata: nothing depends on them.
