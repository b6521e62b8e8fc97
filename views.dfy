/**
  The request handlers of yatube/posts/views.py over the store. Read-only pages are
  functions of the store; the handlers that write (follow, unfollow, create, edit,
  comment) are methods that modify only the tables they touch. The requester of a
  login-protected handler is an authenticated, existing user; form validation is an
  opaque `valid` flag, except that a post form's group field accepts only an existing
  group or none.
*/
module Views {
  import opened Wrappers
  import opened Seqs
  import opened Pagination
  import opened Models
  import opened Database

  /** A redirect target: a profile page or a post's detail page. */
  datatype Target = ProfileOf(user: UserId) | DetailOf(post: PostId)

  /** What a handler answers: a rendered page with its context, a redirect, or a 404. */
  datatype Response<T> = Render(context: T) | Redirect(to: Target) | NotFound

  /** The context of the post form page; `isEdit` is set by the edit handler. */
  datatype FormPage = FormPage(isEdit: bool)

  datatype GroupPage = GroupPage(group: Group, pageObj: Page<Post>)
  datatype ProfilePage = ProfilePage(author: UserId, pageObj: Page<Post>, postCount: nat, following: bool)
  datatype DetailPage = DetailPage(post: Post, postCount: nat, comments: seq<Comment>)

  // ------------------------------------------------------------ follow graph

  predicate HasEdge(follows: seq<Follow>, u: UserId, a: UserId)
  {
    Follow(u, a) in follows
  }

  /** How many `(u, a)` rows the Follow table holds. */
  function EdgeCount(follows: seq<Follow>, u: UserId, a: UserId): nat
  {
    multiset(follows)[Follow(u, a)]
  }

  /** The edge set after `profile_follow`: insert `(u, a)` unless `u == a` or it already exists. */
  function Followed(follows: seq<Follow>, u: UserId, a: UserId): (r: seq<Follow>)
    ensures forall f :: f in r <==> f in follows || (u != a && f == Follow(u, a))
  {
    if u != a && !HasEdge(follows, u, a) then follows + [Follow(u, a)] else follows
  }

  function OtherEdge(u: UserId, a: UserId): Follow -> bool
  {
    (f: Follow) => f != Follow(u, a)
  }

  /** The edge set after `profile_unfollow`: every `(u, a)` row deleted. */
  function Unfollowed(follows: seq<Follow>, u: UserId, a: UserId): (r: seq<Follow>)
    ensures forall f :: f in r <==> f in follows && f != Follow(u, a)
  {
    Filter(follows, OtherEdge(u, a))
  }

  /** No `(user, author)` pair has more than one row. */
  predicate NoDuplicateEdges(follows: seq<Follow>)
  {
    forall f :: f in follows ==> multiset(follows)[f] <= 1
  }

  /** The invariant the two handlers keep: no self-edge and no duplicate edge. */
  predicate CleanGraph(follows: seq<Follow>)
  {
    && (forall f :: f in follows ==> f.user != f.author)
    && NoDuplicateEdges(follows)
  }

  /** Following a different user with no edge yet adds exactly the edge `(u, a)`. */
  lemma FollowAddsEdge(follows: seq<Follow>, u: UserId, a: UserId)
    requires u != a && !HasEdge(follows, u, a)
    ensures multiset(Followed(follows, u, a)) == multiset(follows) + multiset{Follow(u, a)}
    ensures |Followed(follows, u, a)| == |follows| + 1
    ensures HasEdge(Followed(follows, u, a), u, a)
  {
  }

  /** Following yourself changes nothing. */
  lemma FollowSelfIsNoop(follows: seq<Follow>, u: UserId)
    ensures Followed(follows, u, u) == follows
  {
  }

  /** Following is idempotent: once the edge exists, a second follow changes nothing. */
  lemma FollowIdempotent(follows: seq<Follow>, u: UserId, a: UserId)
    ensures HasEdge(follows, u, a) ==> Followed(follows, u, a) == follows
    ensures Followed(Followed(follows, u, a), u, a) == Followed(follows, u, a)
    ensures u != a ==> HasEdge(Followed(follows, u, a), u, a)
  {
  }

  /** Following keeps the graph free of self-edges and duplicates. */
  lemma FollowKeepsClean(follows: seq<Follow>, u: UserId, a: UserId)
    requires CleanGraph(follows)
    ensures CleanGraph(Followed(follows, u, a))
  {
    if u != a && !HasEdge(follows, u, a) {
      assert multiset(follows)[Follow(u, a)] == 0;
    }
  }

  /**
    Unfollowing removes every `(u, a)` edge, keeps every other edge with its
    multiplicity, and shrinks the table by the number of `(u, a)` rows.
  */
  lemma UnfollowRemovesEdges(follows: seq<Follow>, u: UserId, a: UserId)
    ensures !HasEdge(Unfollowed(follows, u, a), u, a)
    ensures forall f :: f != Follow(u, a) ==>
      multiset(Unfollowed(follows, u, a))[f] == multiset(follows)[f]
    ensures |Unfollowed(follows, u, a)| == |follows| - EdgeCount(follows, u, a)
  {
    var r := Unfollowed(follows, u, a);
    forall f | f != Follow(u, a)
      ensures multiset(r)[f] == multiset(follows)[f]
    {
      FilterMultiset(follows, OtherEdge(u, a), f);
    }
    FilterMultiset(follows, OtherEdge(u, a), Follow(u, a));
    assert multiset(r) == multiset(follows)[Follow(u, a) := 0];
    assert multiset(follows) == multiset(r) + multiset{}[Follow(u, a) := EdgeCount(follows, u, a)];
  }

  /** Unfollowing twice is unfollowing once. */
  lemma UnfollowIdempotent(follows: seq<Follow>, u: UserId, a: UserId)
    ensures Unfollowed(Unfollowed(follows, u, a), u, a) == Unfollowed(follows, u, a)
  {
    FilterIdempotent(follows, OtherEdge(u, a));
  }

  /** Unfollowing right after a follow that created the edge restores the original table. */
  lemma UnfollowUndoesFollow(follows: seq<Follow>, u: UserId, a: UserId)
    requires !HasEdge(follows, u, a)
    ensures Unfollowed(Followed(follows, u, a), u, a) == follows
  {
    FilterKeepsAll(follows, OtherEdge(u, a));
    FilterAppend(follows, Follow(u, a), OtherEdge(u, a));
  }

  /** Unfollowing keeps the graph free of self-edges and duplicates. */
  lemma UnfollowKeepsClean(follows: seq<Follow>, u: UserId, a: UserId)
    requires CleanGraph(follows)
    ensures CleanGraph(Unfollowed(follows, u, a))
  {
    forall f | f in Unfollowed(follows, u, a)
      ensures multiset(Unfollowed(follows, u, a))[f] <= 1
    {
      FilterMultiset(follows, OtherEdge(u, a), f);
    }
  }

  // ---------------------------------------------------------------- queries

  /** The first stored post whose id is `id` (the ORM lookup behind `get_object_or_404`). */
  function FindPost(posts: seq<Post>, id: PostId): (r: Option<nat>)
    ensures r.Some? ==> r.value < |posts| && posts[r.value].id == id
    ensures r.None? <==> !PostExists(posts, id)
  {
    if posts == [] then None
    else if posts[0].id == id then Some(0)
    else
      match FindPost(posts[1..], id)
      case None =>
        assert forall p :: p in posts ==> p == posts[0] || p in posts[1..];
        None
      case Some(i) => Some(i + 1)
  }

  /** With increasing ids, the row `FindPost` returns is the only one with that id. */
  lemma FindPostUnique(posts: seq<Post>, id: PostId)
    requires IncreasingBy(posts, IdOf) && PostExists(posts, id)
    ensures forall p :: p in posts && p.id == id ==> p == posts[FindPost(posts, id).value]
  {
    var i := FindPost(posts, id).value;
    forall p | p in posts && p.id == id
      ensures p == posts[i]
    {
      var j :| 0 <= j < |posts| && posts[j] == p;
      assert IdOf(posts[j]) == IdOf(posts[i]);
    }
  }

  /** `Group.objects.get(slug=slug)`. */
  function FindGroup(groups: seq<Group>, slug: string): (r: Option<Group>)
    ensures r.Some? ==> r.value in groups && r.value.slug == slug
    ensures r.None? <==> forall g :: g in groups ==> g.slug != slug
  {
    if groups == [] then None
    else if groups[0].slug == slug then Some(groups[0])
    else
      assert forall g :: g in groups ==> g == groups[0] || g in groups[1..];
      FindGroup(groups[1..], slug)
  }

  /** With unique slugs, the group `FindGroup` returns is the only one with that slug. */
  lemma SlugIdentifiesGroup(groups: seq<Group>, slug: string)
    requires UniqueSlugs(groups) && FindGroup(groups, slug).Some?
    ensures forall g :: g in groups && g.slug == slug ==> g == FindGroup(groups, slug).value
  {
    var found := FindGroup(groups, slug).value;
    forall g | g in groups && g.slug == slug
      ensures g == found
    {
      var i :| 0 <= i < |groups| && groups[i] == g;
      var j :| 0 <= j < |groups| && groups[j] == found;
      if i < j || j < i {
        assert groups[i].slug == groups[j].slug;
      }
    }
  }

  /** A page cut from a listing that is newest first is itself newest first. */
  lemma PageNewestFirst(items: seq<Post>, param: PageParam)
    requires NewestFirst(items)
    ensures NewestFirst(Paginate(items, param).objectList)
  {
    var p := Paginate(items, param);
    var page := p.objectList;
    var base := (p.number - 1) * NumOfPosts;
    forall i, j | 0 <= i < j < |page|
      ensures DateOf(page[i]) > DateOf(page[j])
    {
      assert page[i] == items[base + i] && page[j] == items[base + j];
    }
  }

  /** A page cut from a listing in non-increasing date order keeps that order. */
  lemma PageNewestFirstOrTied(items: seq<Post>, param: PageParam)
    requires NewestFirstOrTied(items)
    ensures NewestFirstOrTied(Paginate(items, param).objectList)
  {
    var p := Paginate(items, param);
    var page := p.objectList;
    var base := (p.number - 1) * NumOfPosts;
    forall i, j | 0 <= i < j < |page|
      ensures DateOf(page[i]) >= DateOf(page[j])
    {
      assert page[i] == items[base + i] && page[j] == items[base + j];
    }
  }

  /** `index`: every post, newest first, one page of it. */
  function Index(db: Store, page: PageParam): (r: Page<Post>)
    reads db
    requires db.Valid()
    ensures r == Paginate(Listing(db.posts, Everything()), page)
    ensures NewestFirst(r.objectList)
    ensures forall p :: p in r.objectList ==> p in db.posts
  {
    var items := Listing(db.posts, Everything());
    ListingNewestFirst(db.posts, Everything());
    PageNewestFirst(items, page);
    Paginate(items, page)
  }

  /** `group_posts`: 404 for an unknown slug, else the group's posts newest first, one page of them. */
  function GroupPosts(db: Store, slug: string, page: PageParam): (r: Response<GroupPage>)
    reads db
    requires db.Valid()
    ensures r.NotFound? <==> forall g :: g in db.groups ==> g.slug != slug
    ensures !r.Redirect?
    ensures r.Render? ==> r.context.group in db.groups && r.context.group.slug == slug
    ensures r.Render? ==> forall p :: p in r.context.pageObj.objectList ==>
      p in db.posts && p.group == Some(r.context.group.id)
    ensures r.Render? ==> NewestFirst(r.context.pageObj.objectList)
    ensures r.Render? ==>
      r.context.pageObj == Paginate(Listing(db.posts, InGroup(r.context.group.id)), page)
  {
    match FindGroup(db.groups, slug)
    case None => NotFound
    case Some(g) =>
      var items := Listing(db.posts, InGroup(g.id));
      ListingNewestFirst(db.posts, InGroup(g.id));
      PageNewestFirst(items, page);
      Render(GroupPage(g, Paginate(items, page)))
  }

  /**
    `profile`: 404 for an unknown user, else that author's posts newest first, one
    page of them, their total post count, and whether the visitor follows them
    (`false` for an anonymous visitor).
  */
  function Profile(db: Store, viewer: Option<UserId>, username: UserId, page: PageParam)
    : (r: Response<ProfilePage>)
    reads db
    requires db.Valid()
    ensures r.NotFound? <==> username !in db.users
    ensures !r.Redirect?
    ensures r.Render? ==> r.context.author == username
    ensures r.Render? ==> forall p :: p in r.context.pageObj.objectList ==>
      p in db.posts && p.author == username
    ensures r.Render? ==> NewestFirst(r.context.pageObj.objectList)
    ensures r.Render? ==> r.context.pageObj == Paginate(Listing(db.posts, ByAuthor(username)), page)
    ensures r.Render? ==> r.context.postCount == |Filter(db.posts, ByAuthor(username))|
    ensures r.Render? ==>
      (r.context.following <==> viewer.Some? && EdgeCount(db.follows, viewer.value, username) > 0)
  {
    if username !in db.users then NotFound
    else
      var items := Listing(db.posts, ByAuthor(username));
      ListingNewestFirst(db.posts, ByAuthor(username));
      PageNewestFirst(items, page);
      var following := viewer.Some? && HasEdge(db.follows, viewer.value, username);
      Render(ProfilePage(username, Paginate(items, page), |items|, following))
  }

  /** `post_detail`: 404 for an unknown id, else the post, its author's post count and its comments. */
  function PostDetail(db: Store, postId: PostId): (r: Response<DetailPage>)
    reads db
    requires db.Valid()
    ensures r.NotFound? <==> !PostExists(db.posts, postId)
    ensures !r.Redirect?
    ensures r.Render? ==> r.context.post in db.posts && r.context.post.id == postId
    ensures r.Render? ==> r.context.postCount == |Filter(db.posts, ByAuthor(r.context.post.author))|
    ensures r.Render? ==> forall c :: c in r.context.comments <==> c in db.comments && c.post == postId
    ensures r.Render? ==> multiset(r.context.comments) == multiset(Filter(db.comments, OnPost(postId)))
  {
    match FindPost(db.posts, postId)
    case None => NotFound
    case Some(i) =>
      var post := db.posts[i];
      Render(DetailPage(post, |Filter(db.posts, ByAuthor(post.author))|, Filter(db.comments, OnPost(postId))))
  }

  /**
    The rows of `Post.objects.filter(author__following__user=u)` in creation order:
    an inner join with the Follow table, so a post appears once per `(u, author)` row.
  */
  function FeedRows(posts: seq<Post>, follows: seq<Follow>, u: UserId): (r: seq<Post>)
    ensures forall p :: p in r <==> p in posts && HasEdge(follows, u, p.author)
  {
    if posts == [] then []
    else
      assert forall p :: p in posts ==> p == posts[0] || p in posts[1..];
      Repeat(posts[0], EdgeCount(follows, u, posts[0].author)) + FeedRows(posts[1..], follows, u)
  }

  /** The join's first post contributes its copies ahead of the join of the rest. */
  lemma FeedRowsConsCount(posts: seq<Post>, follows: seq<Follow>, u: UserId, p: Post)
    requires posts != []
    ensures multiset(FeedRows(posts, follows, u))[p] ==
      (if posts[0] == p then EdgeCount(follows, u, p.author) else 0)
      + multiset(FeedRows(posts[1..], follows, u))[p]
  {
    var head := Repeat(posts[0], EdgeCount(follows, u, posts[0].author));
    assert FeedRows(posts, follows, u) == head + FeedRows(posts[1..], follows, u);
    if posts[0] != p {
      assert p !in head;
    }
  }

  /** The join holds each stored post once per `(u, author)` edge: its multiplicity times the edge count. */
  lemma {:induction false} FeedRowsMultiplicity(posts: seq<Post>, follows: seq<Follow>, u: UserId, p: Post)
    ensures multiset(FeedRows(posts, follows, u))[p] == multiset(posts)[p] * EdgeCount(follows, u, p.author)
  {
    if posts != [] {
      FeedRowsMultiplicity(posts[1..], follows, u, p);
      FeedRowsConsCount(posts, follows, u, p);
      SeqConsCount(posts, p);
      MulSucc(multiset(posts[1..])[p], EdgeCount(follows, u, p.author));
    }
  }

  lemma MulSucc(m: nat, n: nat)
    ensures (m + 1) * n == m * n + n
  {
  }

  function FollowedBy(follows: seq<Follow>, u: UserId): Post -> bool
  {
    (p: Post) => HasEdge(follows, u, p.author)
  }

  /** Without duplicate edges the join is a plain filter: each followed author's post exactly once. */
  lemma {:induction false} FeedRowsWithoutDuplicates(posts: seq<Post>, follows: seq<Follow>, u: UserId)
    requires NoDuplicateEdges(follows)
    ensures FeedRows(posts, follows, u) == Filter(posts, FollowedBy(follows, u))
  {
    if posts != [] {
      FeedRowsWithoutDuplicates(posts[1..], follows, u);
      var n := EdgeCount(follows, u, posts[0].author);
      assert Follow(u, posts[0].author) !in follows ==> n == 0;
      assert n == 0 || n == 1;
      assert n == 1 ==> Repeat(posts[0], n) == [posts[0]];
    }
  }

  /** When dates increase with creation, the joined rows come in non-decreasing date order. */
  lemma {:induction false} FeedRowsChronological(posts: seq<Post>, follows: seq<Follow>, u: UserId)
    requires IncreasingBy(posts, DateOf)
    ensures NonDecreasingBy(FeedRows(posts, follows, u), DateOf)
  {
    if posts != [] {
      var head := Repeat(posts[0], EdgeCount(follows, u, posts[0].author));
      var rest := FeedRows(posts[1..], follows, u);
      FeedRowsChronological(posts[1..], follows, u);
      var r := head + rest;
      forall i, j | 0 <= i < j < |r|
        ensures DateOf(r[i]) <= DateOf(r[j])
      {
        if j >= |head| {
          var q := rest[j - |head|];
          assert q in posts[1..];
          var k :| 0 <= k < |posts[1..]| && posts[1..][k] == q;
          assert posts[k + 1] == q;
          if i < |head| {
            assert r[i] in head;
          }
        } else {
          assert r[i] in head && r[j] in head;
        }
      }
    }
  }

  /** `follow_index`: the posts of the authors `requester` follows, newest first, one page of them. */
  function FollowIndex(db: Store, requester: UserId, page: PageParam): (r: Page<Post>)
    reads db
    requires db.Valid()
    ensures forall p :: p in r.objectList ==> p in db.posts && HasEdge(db.follows, requester, p.author)
    ensures r == Paginate(Reverse(FeedRows(db.posts, db.follows, requester)), page)
    ensures NewestFirstOrTied(r.objectList)
    ensures forall p, q :: p in r.objectList && q in r.objectList && p.pubDate == q.pubDate ==> p == q
    ensures NoDuplicateEdges(db.follows) ==> NewestFirst(r.objectList)
    ensures NoDuplicateEdges(db.follows) ==>
      r == Paginate(Listing(db.posts, FollowedBy(db.follows, requester)), page)
  {
    var items := Reverse(FeedRows(db.posts, db.follows, requester));
    FeedRowsChronological(db.posts, db.follows, requester);
    ReverseNonIncreasing(FeedRows(db.posts, db.follows, requester), DateOf);
    PageNewestFirstOrTied(items, page);
    DatesIdentifyPosts(db.posts);
    if NoDuplicateEdges(db.follows) then
      FeedRowsWithoutDuplicates(db.posts, db.follows, requester);
      ListingNewestFirst(db.posts, FollowedBy(db.follows, requester));
      PageNewestFirst(items, page);
      Paginate(items, page)
    else
      Paginate(items, page)
  }

  /** A following visitor sees every post of the author in the feed, and a non-following one none. */
  lemma FeedIsExactlyFollowedAuthors(posts: seq<Post>, follows: seq<Follow>, u: UserId, p: Post)
    requires p in posts
    ensures p in Reverse(FeedRows(posts, follows, u)) <==> HasEdge(follows, u, p.author)
  {
  }

  // --------------------------------------------------------------- handlers

  /** `profile_follow`: 404 for an unknown target; else the guarded insert, then back to the profile. */
  method ProfileFollow(db: Store, requester: UserId, username: UserId) returns (r: Response<FormPage>)
    requires db.Valid() && requester in db.users
    modifies db`follows
    ensures db.Valid()
    ensures username !in db.users ==> r == NotFound && db.follows == old(db.follows)
    ensures username in db.users ==>
      r == Redirect(ProfileOf(username)) && db.follows == Followed(old(db.follows), requester, username)
  {
    if username !in db.users {
      return NotFound;
    }
    var author := username;
    if author != requester && !HasEdge(db.follows, requester, author) {
      db.CreateFollow(requester, author);
    }
    return Redirect(ProfileOf(author));
  }

  /** `profile_unfollow`: 404 for an unknown target; else every matching edge deleted, then back to the profile. */
  method ProfileUnfollow(db: Store, requester: UserId, username: UserId) returns (r: Response<FormPage>)
    requires db.Valid() && requester in db.users
    modifies db`follows
    ensures db.Valid()
    ensures username !in db.users ==> r == NotFound && db.follows == old(db.follows)
    ensures username in db.users ==>
      r == Redirect(ProfileOf(username)) && db.follows == Unfollowed(old(db.follows), requester, username)
  {
    if username !in db.users {
      return NotFound;
    }
    db.DeleteFollows(OtherEdge(requester, username));
    return Redirect(ProfileOf(username));
  }

  /** A submitted post form is saved when it validates; its group field admits only existing groups. */
  predicate Accepted(submitted: bool, valid: bool, groups: seq<Group>, group: Option<GroupId>)
  {
    submitted && valid && GroupRefOk(groups, group)
  }

  /**
    `post_create`: an accepted form appends a post by the requester, stamped with the
    clock, and redirects to the requester's profile; otherwise the form is shown again.
  */
  method PostCreate(db: Store, requester: UserId, submitted: bool, valid: bool,
                    text: string, group: Option<GroupId>, image: Option<string>)
    returns (r: Response<FormPage>)
    requires db.Valid() && requester in db.users
    modifies db`posts, db`clock, db`nextPostId
    ensures db.Valid()
    ensures Accepted(submitted, valid, db.groups, group) ==>
      && r == Redirect(ProfileOf(requester))
      && db.posts == old(db.posts) + [Post(old(db.nextPostId), text, old(db.clock), requester, group, image)]
    ensures !Accepted(submitted, valid, db.groups, group) ==>
      && r == Render(FormPage(false)) && db.posts == old(db.posts)
      && db.clock == old(db.clock) && db.nextPostId == old(db.nextPostId)
  {
    if submitted {
      if valid && GroupRefOk(db.groups, group) {
        var _ := db.CreatePost(text, requester, group, image);
        return Redirect(ProfileOf(requester));
      }
    }
    return Render(FormPage(false));
  }

  /** The post after its author saves the edit form: only text, group and image take new values. */
  function Edited(p: Post, requester: UserId, text: string, group: Option<GroupId>, image: Option<string>)
    : (q: Post)
    requires p.author == requester
    ensures q.id == p.id && q.pubDate == p.pubDate && q.author == p.author
    ensures q.text == text && q.group == group && q.image == image
  {
    p.(text := text, author := requester, group := group, image := image)
  }

  /**
    `post_edit`: 404 for an unknown post; a non-author is redirected to the detail page
    with the store untouched; the author's accepted form rewrites the post in place and
    redirects to the detail page; otherwise the edit form is shown.
  */
  method PostEdit(db: Store, requester: UserId, postId: PostId, submitted: bool, valid: bool,
                  text: string, group: Option<GroupId>, image: Option<string>)
    returns (r: Response<FormPage>)
    requires db.Valid() && requester in db.users
    modifies db`posts
    ensures db.Valid()
    ensures FindPost(old(db.posts), postId).None? ==> r == NotFound && db.posts == old(db.posts)
    ensures FindPost(old(db.posts), postId).Some? ==>
      var i := FindPost(old(db.posts), postId).value;
      var p := old(db.posts)[i];
      && (p.author != requester ==> r == Redirect(DetailOf(postId)) && db.posts == old(db.posts))
      && (p.author == requester && Accepted(submitted, valid, db.groups, group) ==>
            && r == Redirect(DetailOf(postId))
            && db.posts == old(db.posts)[i := Edited(p, requester, text, group, image)])
      && (p.author == requester && !Accepted(submitted, valid, db.groups, group) ==>
            r == Render(FormPage(true)) && db.posts == old(db.posts))
  {
    var found := FindPost(db.posts, postId);
    if found.None? {
      return NotFound;
    }
    var i := found.value;
    var post := db.posts[i];
    if post.author == requester {
      if submitted {
        if valid && GroupRefOk(db.groups, group) {
          db.SavePost(i, text, requester, group, image);
          return Redirect(DetailOf(postId));
        }
      }
      return Render(FormPage(true));
    }
    return Redirect(DetailOf(postId));
  }

  /**
    `add_comment`: 404 for an unknown post; a valid form appends one comment by the
    requester on that post; either way the answer is a redirect to the detail page.
  */
  method AddComment(db: Store, requester: UserId, postId: PostId, valid: bool, text: string)
    returns (r: Response<FormPage>)
    requires db.Valid() && requester in db.users
    modifies db`comments, db`clock, db`nextCommentId
    ensures db.Valid()
    ensures !PostExists(db.posts, postId) ==> r == NotFound && db.comments == old(db.comments)
    ensures PostExists(db.posts, postId) ==> r == Redirect(DetailOf(postId))
    ensures PostExists(db.posts, postId) && valid ==>
      db.comments == old(db.comments) + [Comment(old(db.nextCommentId), postId, requester, text, old(db.clock))]
    ensures !valid ==> db.comments == old(db.comments)
    ensures !(PostExists(db.posts, postId) && valid) ==>
      db.clock == old(db.clock) && db.nextCommentId == old(db.nextCommentId)
  {
    if FindPost(db.posts, postId).None? {
      return NotFound;
    }
    if valid {
      var _ := db.CreateComment(postId, requester, text);
    }
    return Redirect(DetailOf(postId));
  }

  // ------------------------------------------------- effects on the listings

  /** A new post raises its author's post count by one and leaves every other author's count alone. */
  lemma CreateRaisesPostCount(posts: seq<Post>, p: Post, a: UserId)
    ensures |Filter(posts + [p], ByAuthor(a))| ==
      |Filter(posts, ByAuthor(a))| + (if p.author == a then 1 else 0)
  {
    FilterAppend(posts, p, ByAuthor(a));
  }

  /** An edit that keeps the author keeps every author's post count. */
  lemma EditKeepsPostCount(posts: seq<Post>, i: nat, q: Post, a: UserId)
    requires i < |posts| && q.author == posts[i].author
    ensures |Filter(posts[i := q], ByAuthor(a))| == |Filter(posts, ByAuthor(a))|
  {
    FilterUpdateLength(posts, i, q, ByAuthor(a));
  }

  /** A new comment on a post adds exactly that comment to the post's comment list. */
  lemma CommentJoinsThread(comments: seq<Comment>, c: Comment)
    ensures Filter(comments + [c], OnPost(c.post)) == Filter(comments, OnPost(c.post)) + [c]
    ensures |Filter(comments + [c], OnPost(c.post))| == |Filter(comments, OnPost(c.post))| + 1
  {
    FilterAppend(comments, c, OnPost(c.post));
  }
}
