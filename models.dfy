/**
  The tables of yatube/posts/models.py (Post, Group, Comment, Follow) as rows in an
  in-memory relational store, the default ordering of post listings, the foreign-key
  integrity the store keeps, and the `on_delete` policies as deletions on the store.
*/
module Models {
  import opened Wrappers
  import opened Seqs

  type UserId = nat
  type PostId = nat
  type GroupId = nat
  type CommentId = nat

  /** A topical category; its slug is unique in the store. */
  datatype Group = Group(id: GroupId, title: string, slug: string, description: string)

  /**
    A post. Author and text are required columns; group (nullable foreign key) and
    image (a stored file path) are optional. `pubDate` is a monotone counter value.
  */
  datatype Post = Post(
    id: PostId,
    text: string,
    pubDate: nat,
    author: UserId,
    group: Option<GroupId>,
    image: Option<string>)

  /** A comment on a post. */
  datatype Comment = Comment(id: CommentId, post: PostId, author: UserId, text: string, created: nat)

  /** A directed subscription edge: `user` follows `author`. */
  datatype Follow = Follow(user: UserId, author: UserId)

  /** How many characters of its text `Post.__str__` shows. */
  const StrLength: nat := 15

  /** `Post.__str__`: the text cut after its first `StrLength` characters. */
  function Str(p: Post): (s: string)
    ensures |s| == if |p.text| < StrLength then |p.text| else StrLength
    ensures s <= p.text
  {
    if |p.text| <= StrLength then p.text else p.text[..StrLength]
  }

  function IdOf(p: Post): int { p.id }
  function DateOf(p: Post): int { p.pubDate }
  function CommentIdOf(c: Comment): int { c.id }
  function GroupIdOf(g: Group): int { g.id }

  // ---------------------------------------------------------------- ordering

  /** `Meta.ordering = ('-pub_date',)`: newest first, no two posts with the same date. */
  predicate NewestFirst(s: seq<Post>)
  {
    DecreasingBy(s, DateOf)
  }

  /** Newest first, where posts of equal date may sit side by side in any order. */
  predicate NewestFirstOrTied(s: seq<Post>)
  {
    NonIncreasingBy(s, DateOf)
  }

  /**
    A post queryset: the rows of `posts` (kept in creation order by the store) that
    satisfy `keep`, in the model's default order, newest first.
  */
  function Listing(posts: seq<Post>, keep: Post -> bool): (r: seq<Post>)
    ensures |r| == |Filter(posts, keep)|
    ensures multiset(r) == multiset(Filter(posts, keep))
    ensures forall p :: p in r <==> p in posts && keep(p)
  {
    Reverse(Filter(posts, keep))
  }

  /** When dates increase with creation order, no two stored posts share a date. */
  lemma DatesIdentifyPosts(posts: seq<Post>)
    requires IncreasingBy(posts, DateOf)
    ensures forall p, q :: p in posts && q in posts && p.pubDate == q.pubDate ==> p == q
  {
    forall p, q | p in posts && q in posts && p.pubDate == q.pubDate
      ensures p == q
    {
      var i :| 0 <= i < |posts| && posts[i] == p;
      var j :| 0 <= j < |posts| && posts[j] == q;
      assert DateOf(posts[i]) == DateOf(posts[j]);
    }
  }

  /** When dates increase with creation order, every listing is ordered newest first. */
  lemma ListingNewestFirst(posts: seq<Post>, keep: Post -> bool)
    requires IncreasingBy(posts, DateOf)
    ensures NewestFirst(Listing(posts, keep))
  {
    FilterIncreasing(posts, keep, DateOf);
    ReverseDecreasing(Filter(posts, keep), DateOf);
  }

  /** A post newer than every stored one heads every listing it belongs to. */
  lemma NewPostLeadsListing(posts: seq<Post>, p: Post, keep: Post -> bool)
    requires keep(p)
    ensures Listing(posts + [p], keep) == [p] + Listing(posts, keep)
  {
    FilterAppend(posts, p, keep);
    ReverseAppend(Filter(posts, keep), p);
  }

  function ByAuthor(a: UserId): Post -> bool { (p: Post) => p.author == a }
  function InGroup(g: GroupId): Post -> bool { (p: Post) => p.group == Some(g) }
  function Everything(): Post -> bool { (p: Post) => true }
  function OnPost(id: PostId): Comment -> bool { (c: Comment) => c.post == id }
  function OffPost(id: PostId): Comment -> bool { (c: Comment) => c.post != id }
  function OtherPost(id: PostId): Post -> bool { (p: Post) => p.id != id }
  function OtherGroup(g: GroupId): Group -> bool { (gr: Group) => gr.id != g }
  function NotByAuthor(u: UserId): Post -> bool { (p: Post) => p.author != u }
  function NotInvolving(u: UserId): Follow -> bool { (f: Follow) => f.user != u && f.author != u }

  // ------------------------------------------------------------- integrity

  predicate GroupExists(groups: seq<Group>, g: GroupId)
  {
    exists gr :: gr in groups && gr.id == g
  }

  /** A nullable group reference is either null or names an existing group. */
  predicate GroupRefOk(groups: seq<Group>, ref: Option<GroupId>)
  {
    ref.None? || GroupExists(groups, ref.value)
  }

  predicate PostExists(posts: seq<Post>, id: PostId)
  {
    exists p :: p in posts && p.id == id
  }

  /** `slug = SlugField(unique=True)`. */
  predicate UniqueSlugs(groups: seq<Group>)
  {
    forall i, j :: 0 <= i < j < |groups| ==> groups[i].slug != groups[j].slug
  }

  /** A snapshot of the user set and the four tables. */
  datatype Tables = Tables(
    users: set<UserId>,
    groups: seq<Group>,
    posts: seq<Post>,
    comments: seq<Comment>,
    follows: seq<Follow>)

  /** Every foreign key names an existing row: no dangling reference anywhere. */
  predicate Integral(t: Tables)
  {
    && (forall p :: p in t.posts ==> p.author in t.users && GroupRefOk(t.groups, p.group))
    && (forall c :: c in t.comments ==> c.author in t.users && PostExists(t.posts, c.post))
    && (forall f :: f in t.follows ==> f.user in t.users && f.author in t.users)
  }

  // -------------------------------------------------------------- on_delete

  /** The post with its group reference cleared if it pointed at `g` (`SET_NULL`). */
  function Unlinked(p: Post, g: GroupId): (q: Post)
    ensures q.id == p.id && q.text == p.text && q.pubDate == p.pubDate
    ensures q.author == p.author && q.image == p.image
    ensures q.group == if p.group == Some(g) then None else p.group
  {
    if p.group == Some(g) then p.(group := None) else p
  }

  /** Deleting group `g`: the group row goes, its posts stay with their group set to null. */
  function WithoutGroup(t: Tables, g: GroupId): Tables
  {
    Tables(
      t.users,
      Filter(t.groups, OtherGroup(g)),
      seq(|t.posts|, i requires 0 <= i < |t.posts| => Unlinked(t.posts[i], g)),
      t.comments,
      t.follows)
  }

  /** Deleting post `id`: the post row goes and so do its comments (`CASCADE`); nothing else changes. */
  function WithoutPost(t: Tables, id: PostId): Tables
  {
    Tables(
      t.users,
      t.groups,
      Filter(t.posts, OtherPost(id)),
      Filter(t.comments, OffPost(id)),
      t.follows)
  }

  predicate PostByAuthor(posts: seq<Post>, id: PostId, u: UserId)
  {
    exists p :: p in posts && p.id == id && p.author == u
  }

  /** A comment survives deleting `u` unless `u` wrote it or wrote the post it is on. */
  function OutlivesUser(posts: seq<Post>, u: UserId): Comment -> bool
  {
    (c: Comment) => c.author != u && !PostByAuthor(posts, c.post, u)
  }

  /**
    Deleting user `u` (`CASCADE` on every user key): their posts, their comments,
    the comments on their posts, and every follow edge with `u` on either side.
  */
  function WithoutUser(t: Tables, u: UserId): Tables
  {
    Tables(
      t.users - {u},
      t.groups,
      Filter(t.posts, NotByAuthor(u)),
      Filter(t.comments, OutlivesUser(t.posts, u)),
      Filter(t.follows, NotInvolving(u)))
  }

  /** Deleting a group removes it and sets its posts' group to null; every post stays, in place. */
  lemma WithoutGroupRows(t: Tables, g: GroupId)
    ensures var r := WithoutGroup(t, g);
      && r.users == t.users && r.comments == t.comments && r.follows == t.follows
      && (forall gr :: gr in r.groups <==> gr in t.groups && gr.id != g)
      && |r.posts| == |t.posts|
      && (forall i :: 0 <= i < |t.posts| ==> r.posts[i] == Unlinked(t.posts[i], g))
  {
  }

  /** Deleting a post removes it and exactly the comments on it; nothing else changes. */
  lemma WithoutPostRows(t: Tables, id: PostId)
    ensures var r := WithoutPost(t, id);
      && r.users == t.users && r.groups == t.groups && r.follows == t.follows
      && (forall p :: p in r.posts <==> p in t.posts && p.id != id)
      && (forall c :: c in r.comments <==> c in t.comments && c.post != id)
  {
  }

  /**
    Deleting a user removes their posts, their comments, the comments on their posts
    and every follow edge with them on either side; groups stay.
  */
  lemma WithoutUserRows(t: Tables, u: UserId)
    ensures var r := WithoutUser(t, u);
      && r.users == t.users - {u} && r.groups == t.groups
      && (forall p :: p in r.posts <==> p in t.posts && p.author != u)
      && (forall c :: c in r.comments <==>
            c in t.comments && c.author != u && !PostByAuthor(t.posts, c.post, u))
      && (forall f :: f in r.follows <==> f in t.follows && f.user != u && f.author != u)
  {
  }

  /** Deleting a group leaves no post pointing at it and every other reference intact. */
  lemma DeleteGroupKeepsIntegrity(t: Tables, g: GroupId)
    requires Integral(t)
    ensures Integral(WithoutGroup(t, g))
    ensures forall p :: p in WithoutGroup(t, g).posts ==> p.group != Some(g)
    ensures forall p :: p in t.posts ==> Unlinked(p, g) in WithoutGroup(t, g).posts
  {
    var r := WithoutGroup(t, g);
    WithoutGroupRows(t, g);
    forall p | p in r.posts
      ensures p.author in r.users && GroupRefOk(r.groups, p.group) && p.group != Some(g)
    {
      var i :| 0 <= i < |r.posts| && r.posts[i] == p;
      var q := t.posts[i];
      assert q in t.posts;
      if p.group.Some? {
        var gr :| gr in t.groups && gr.id == q.group.value;
        assert gr in r.groups;
      }
    }
    forall c | c in r.comments
      ensures PostExists(r.posts, c.post)
    {
      var q :| q in t.posts && q.id == c.post;
      var i :| 0 <= i < |t.posts| && t.posts[i] == q;
      assert r.posts[i] in r.posts;
    }
    forall p | p in t.posts
      ensures Unlinked(p, g) in r.posts
    {
      var i :| 0 <= i < |t.posts| && t.posts[i] == p;
      assert r.posts[i] == Unlinked(p, g);
    }
  }

  /** Deleting a post leaves no comment on it and every other reference intact. */
  lemma DeletePostKeepsIntegrity(t: Tables, id: PostId)
    requires Integral(t)
    ensures Integral(WithoutPost(t, id))
    ensures forall c :: c in WithoutPost(t, id).comments ==> c.post != id
  {
    var r := WithoutPost(t, id);
    WithoutPostRows(t, id);
    forall c | c in r.comments
      ensures PostExists(r.posts, c.post)
    {
      var q :| q in t.posts && q.id == c.post;
      assert q in r.posts;
    }
  }

  /** Deleting a user leaves no row that refers to them and every other reference intact. */
  lemma DeleteUserKeepsIntegrity(t: Tables, u: UserId)
    requires Integral(t)
    ensures Integral(WithoutUser(t, u))
    ensures forall p :: p in WithoutUser(t, u).posts ==> p.author != u
    ensures forall c :: c in WithoutUser(t, u).comments ==> c.author != u
    ensures forall f :: f in WithoutUser(t, u).follows ==> f.user != u && f.author != u
  {
    var r := WithoutUser(t, u);
    WithoutUserRows(t, u);
    forall c | c in r.comments
      ensures PostExists(r.posts, c.post)
    {
      var q :| q in t.posts && q.id == c.post;
      assert q.author != u;
      assert q in r.posts;
    }
  }

  // ------------------------------------------------------- table invariants

  /** Unique slugs, and ids that increase along the table and stay below the next id. */
  predicate GroupsOrdered(groups: seq<Group>, nextId: nat)
  {
    && UniqueSlugs(groups)
    && IncreasingBy(groups, GroupIdOf)
    && (forall g :: g in groups ==> g.id < nextId)
  }

  /** Ids and `pub_date`s increase along the table and stay below the next id and the clock. */
  predicate PostsOrdered(posts: seq<Post>, nextId: nat, clock: nat)
  {
    && IncreasingBy(posts, IdOf)
    && IncreasingBy(posts, DateOf)
    && (forall p :: p in posts ==> p.id < nextId && p.pubDate < clock)
  }

  /** Ids increase along the table; ids and stamps stay below the next id and the clock. */
  predicate CommentsOrdered(comments: seq<Comment>, nextId: nat, clock: nat)
  {
    && IncreasingBy(comments, CommentIdOf)
    && (forall c :: c in comments ==> c.id < nextId && c.created < clock)
  }

  lemma FilterGroupsOrdered(groups: seq<Group>, keep: Group -> bool, nextId: nat)
    requires GroupsOrdered(groups, nextId)
    ensures GroupsOrdered(Filter(groups, keep), nextId)
  {
    var r := Filter(groups, keep);
    FilterIncreasing(groups, keep, GroupIdOf);
    forall i, j | 0 <= i < j < |r|
      ensures r[i].slug != r[j].slug
    {
      assert r[i] in groups && r[j] in groups;
      var i' :| 0 <= i' < |groups| && groups[i'] == r[i];
      var j' :| 0 <= j' < |groups| && groups[j'] == r[j];
      assert GroupIdOf(r[i]) < GroupIdOf(r[j]);
    }
  }

  lemma FilterPostsOrdered(posts: seq<Post>, keep: Post -> bool, nextId: nat, clock: nat)
    requires PostsOrdered(posts, nextId, clock)
    ensures PostsOrdered(Filter(posts, keep), nextId, clock)
  {
    FilterIncreasing(posts, keep, IdOf);
    FilterIncreasing(posts, keep, DateOf);
  }

  lemma FilterCommentsOrdered(comments: seq<Comment>, keep: Comment -> bool, nextId: nat, clock: nat)
    requires CommentsOrdered(comments, nextId, clock)
    ensures CommentsOrdered(Filter(comments, keep), nextId, clock)
  {
    FilterIncreasing(comments, keep, CommentIdOf);
  }

  lemma UnlinkedPostsOrdered(posts: seq<Post>, g: GroupId, nextId: nat, clock: nat)
    requires PostsOrdered(posts, nextId, clock)
    ensures PostsOrdered(seq(|posts|, i requires 0 <= i < |posts| => Unlinked(posts[i], g)), nextId, clock)
  {
    var r := seq(|posts|, i requires 0 <= i < |posts| => Unlinked(posts[i], g));
    forall p | p in r
      ensures p.id < nextId && p.pubDate < clock
    {
      var i :| 0 <= i < |r| && r[i] == p;
      assert posts[i] in posts;
    }
  }

  /** What the store keeps true of its tables and counters. */
  predicate StoreInvariant(t: Tables, nextGroupId: nat, nextPostId: nat, nextCommentId: nat, clock: nat)
  {
    && Integral(t)
    && GroupsOrdered(t.groups, nextGroupId)
    && PostsOrdered(t.posts, nextPostId, clock)
    && CommentsOrdered(t.comments, nextCommentId, clock)
  }

  lemma WithoutGroupKeepsInvariant(t: Tables, g: GroupId, ng: nat, np: nat, nc: nat, clock: nat)
    requires StoreInvariant(t, ng, np, nc, clock)
    ensures StoreInvariant(WithoutGroup(t, g), ng, np, nc, clock)
  {
    DeleteGroupKeepsIntegrity(t, g);
    FilterGroupsOrdered(t.groups, OtherGroup(g), ng);
    UnlinkedPostsOrdered(t.posts, g, np, clock);
  }

  lemma WithoutPostKeepsInvariant(t: Tables, id: PostId, ng: nat, np: nat, nc: nat, clock: nat)
    requires StoreInvariant(t, ng, np, nc, clock)
    ensures StoreInvariant(WithoutPost(t, id), ng, np, nc, clock)
  {
    DeletePostKeepsIntegrity(t, id);
    FilterPostsOrdered(t.posts, OtherPost(id), np, clock);
    FilterCommentsOrdered(t.comments, OffPost(id), nc, clock);
  }

  lemma WithoutUserKeepsInvariant(t: Tables, u: UserId, ng: nat, np: nat, nc: nat, clock: nat)
    requires StoreInvariant(t, ng, np, nc, clock)
    ensures StoreInvariant(WithoutUser(t, u), ng, np, nc, clock)
  {
    DeleteUserKeepsIntegrity(t, u);
    FilterPostsOrdered(t.posts, NotByAuthor(u), np, clock);
    FilterCommentsOrdered(t.comments, OutlivesUser(t.posts, u), nc, clock);
  }
}
