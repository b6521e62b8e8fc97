/**
  The database behind the views: the tables of the models as fields of one object that
  the request handlers update in place, and the integrity it keeps between requests.
*/
module Database {
  import opened Wrappers
  import opened Seqs
  import opened Models

  /**
    The database: the user set, the four tables (rows in creation order), the clock
    that stamps `pub_date` and `created`, and the auto-increment id counters.
  */
  class Store {
    var users: set<UserId>
    var groups: seq<Group>
    var posts: seq<Post>
    var comments: seq<Comment>
    var follows: seq<Follow>
    var clock: nat
    var nextGroupId: nat
    var nextPostId: nat
    var nextCommentId: nat

    function Rows(): Tables
      reads this
    {
      Tables(users, groups, posts, comments, follows)
    }

    /**
      Foreign keys resolve, slugs are unique, ids are fresh and increasing, and posts
      are stored in increasing `pub_date` order.
    */
    ghost predicate Valid()
      reads this
    {
      StoreInvariant(Rows(), nextGroupId, nextPostId, nextCommentId, clock)
    }

    constructor ()
      ensures Valid()
      ensures Rows() == Tables({}, [], [], [], [])
    {
      users, groups, posts, comments, follows := {}, [], [], [], [];
      clock, nextGroupId, nextPostId, nextCommentId := 0, 0, 0, 0;
    }

    /** `User.objects.create_user`: a new account (out of band for this application). */
    method CreateUser(u: UserId)
      requires Valid()
      modifies this`users
      ensures Valid()
      ensures users == old(users) + {u}
    {
      users := users + {u};
    }

    /** `Group.objects.create`: refused (no row added) when the slug is already taken. */
    method CreateGroup(title: string, slug: string, description: string) returns (r: Option<GroupId>)
      requires Valid()
      modifies this`groups, this`nextGroupId
      ensures Valid()
      ensures r.None? <==> exists g :: g in old(groups) && g.slug == slug
      ensures r.None? ==> groups == old(groups)
      ensures r.Some? ==>
        r.value == old(nextGroupId) && groups == old(groups) + [Group(r.value, title, slug, description)]
    {
      if exists g :: g in groups && g.slug == slug {
        return None;
      }
      var g := Group(nextGroupId, title, slug, description);
      AppendIncreasing(groups, g, GroupIdOf);
      groups := groups + [g];
      nextGroupId := nextGroupId + 1;
      r := Some(g.id);
    }

    /** `Post.save()` for a new row: the next id, and the clock as its `pub_date`. */
    method CreatePost(text: string, author: UserId, group: Option<GroupId>, image: Option<string>)
      returns (id: PostId)
      requires Valid() && author in users && GroupRefOk(groups, group)
      modifies this`posts, this`clock, this`nextPostId
      ensures Valid()
      ensures id == old(nextPostId)
      ensures posts == old(posts) + [Post(id, text, old(clock), author, group, image)]
      ensures clock == old(clock) + 1
    {
      var p := Post(nextPostId, text, clock, author, group, image);
      AppendIncreasing(posts, p, IdOf);
      AppendIncreasing(posts, p, DateOf);
      posts := posts + [p];
      id := nextPostId;
      nextPostId := nextPostId + 1;
      clock := clock + 1;
    }

    /** `Post.save()` for an existing row: the row at index `i` takes the new values. */
    method SavePost(i: nat, text: string, author: UserId, group: Option<GroupId>, image: Option<string>)
      requires Valid() && i < |posts| && author in users && GroupRefOk(groups, group)
      modifies this`posts
      ensures Valid()
      ensures posts == old(posts)[i := old(posts)[i].(text := text, author := author, group := group, image := image)]
    {
      var p := posts[i].(text := text, author := author, group := group, image := image);
      posts := posts[i := p];
      assert forall c :: c in comments ==> PostExists(posts, c.post) by {
        forall c | c in comments
          ensures PostExists(posts, c.post)
        {
          var q :| q in old(posts) && q.id == c.post;
          var j :| 0 <= j < |old(posts)| && old(posts)[j] == q;
          assert posts[j] in posts && posts[j].id == q.id;
        }
      }
    }

    /** `Comment.save()` for a new row. */
    method CreateComment(post: PostId, author: UserId, text: string) returns (id: CommentId)
      requires Valid() && author in users && PostExists(posts, post)
      modifies this`comments, this`clock, this`nextCommentId
      ensures Valid()
      ensures id == old(nextCommentId)
      ensures comments == old(comments) + [Comment(id, post, author, text, old(clock))]
      ensures clock == old(clock) + 1
    {
      var c := Comment(nextCommentId, post, author, text, clock);
      AppendIncreasing(comments, c, CommentIdOf);
      comments := comments + [c];
      id := nextCommentId;
      nextCommentId := nextCommentId + 1;
      clock := clock + 1;
    }

    /** `Follow.objects.create`: the table itself accepts self-edges and duplicates. */
    method CreateFollow(user: UserId, author: UserId)
      requires Valid() && user in users && author in users
      modifies this`follows
      ensures Valid()
      ensures follows == old(follows) + [Follow(user, author)]
    {
      follows := follows + [Follow(user, author)];
    }

    /** `Follow.objects.filter(...).delete()`: every edge `keep` rejects goes. */
    method DeleteFollows(keep: Follow -> bool)
      requires Valid()
      modifies this`follows
      ensures Valid()
      ensures follows == Filter(old(follows), keep)
    {
      follows := Filter(follows, keep);
    }

    /** `group.delete()`. */
    method DeleteGroup(g: GroupId)
      requires Valid()
      modifies this`groups, this`posts
      ensures Valid()
      ensures Rows() == WithoutGroup(old(Rows()), g)
    {
      var r := WithoutGroup(Rows(), g);
      WithoutGroupKeepsInvariant(Rows(), g, nextGroupId, nextPostId, nextCommentId, clock);
      groups, posts := r.groups, r.posts;
      assert Rows() == r;
    }

    /** `post.delete()`. */
    method DeletePost(id: PostId)
      requires Valid()
      modifies this`posts, this`comments
      ensures Valid()
      ensures Rows() == WithoutPost(old(Rows()), id)
    {
      var r := WithoutPost(Rows(), id);
      WithoutPostKeepsInvariant(Rows(), id, nextGroupId, nextPostId, nextCommentId, clock);
      posts, comments := r.posts, r.comments;
      assert Rows() == r;
    }

    /** `user.delete()`. */
    method DeleteUser(u: UserId)
      requires Valid()
      modifies this`users, this`posts, this`comments, this`follows
      ensures Valid()
      ensures Rows() == WithoutUser(old(Rows()), u)
    {
      WithoutUserKeepsInvariant(Rows(), u, nextGroupId, nextPostId, nextCommentId, clock);
      users, posts, comments, follows :=
        users - {u},
        Filter(posts, NotByAuthor(u)),
        Filter(comments, OutlivesUser(posts, u)),
        Filter(follows, NotInvolving(u));
    }
  }
}
