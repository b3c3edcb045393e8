/** The records of yatube/posts/models.py, their `__str__`, the ordering of
    posts, the integrity rules of the database and the `on_delete` rules. */
module Models {
  import opened Common

  type UserId = nat
  type GroupId = nat
  type PostId = nat
  type CommentId = nat

  /** A user of the authentication framework, as far as the posts app reads it. */
  datatype User = User(id: UserId, username: string)

  datatype Group = Group(id: GroupId, title: string, slug: string, description: string)

  /** `pubDate` is the store clock at creation (`auto_now_add`). */
  datatype Post = Post(id: PostId, text: string, pubDate: nat, author: UserId, group: Option<GroupId>)

  datatype Comment = Comment(id: CommentId, post: PostId, author: UserId, text: string, created: nat)

  /** A follow edge: `user` follows `author`. */
  datatype Follow = Follow(user: UserId, author: UserId)

  /** `str(group)`. */
  function GroupName(g: Group): string
  {
    g.title
  }

  /** `str(post)`: `text[:LIMIT_POSTS]`, with the limit as a parameter. */
  function PostName(p: Post, limit: nat): (s: string)
    ensures |s| == Min(|p.text|, limit)
    ensures s <= p.text
  {
    p.text[..Min(|p.text|, limit)]
  }

  /** `ordering = ('-pub_date',)`: newest first, strictly, since no two posts
      share a creation time. */
  ghost predicate NewestFirst(posts: seq<Post>)
  {
    forall i, j :: 0 <= i < j < |posts| ==> posts[i].pubDate > posts[j].pubDate
  }

  /** Putting a post in front of newer-first posts that are all older keeps
      the sequence newest first. */
  lemma NewestFirstCons(p: Post, rest: seq<Post>)
    requires NewestFirst(rest)
    requires forall q :: q in rest ==> q.pubDate < p.pubDate
    ensures NewestFirst([p] + rest)
  {
    var r := [p] + rest;
    forall i, j | 0 <= i < j < |r| ensures r[i].pubDate > r[j].pubDate {
      assert r[j] == rest[j - 1];
      if i > 0 {
        assert r[i] == rest[i - 1];
      } else {
        assert rest[j - 1] in rest;
      }
    }
  }

  /** Filtering a newest-first sequence keeps it newest first. */
  lemma {:induction false} FilterNewestFirst(posts: seq<Post>, keep: Post -> bool)
    ensures NewestFirst(posts) ==> NewestFirst(Filter(posts, keep))
  {
    if posts != [] && NewestFirst(posts) {
      var tail := posts[1..];
      assert NewestFirst(tail) by {
        forall i, j | 0 <= i < j < |tail| ensures tail[i].pubDate > tail[j].pubDate {
          assert tail[i] == posts[i + 1] && tail[j] == posts[j + 1];
        }
      }
      FilterNewestFirst(tail, keep);
      var rest := Filter(tail, keep);
      if keep(posts[0]) {
        forall q | q in rest ensures q.pubDate < posts[0].pubDate {
          var k :| 0 <= k < |tail| && tail[k] == q;
          assert posts[k + 1] == q;
        }
        NewestFirstCons(posts[0], rest);
      }
    }
  }

  function UserIds(users: seq<User>): set<UserId>
  {
    set u | u in users :: u.id
  }

  function GroupIds(groups: seq<Group>): set<GroupId>
  {
    set g | g in groups :: g.id
  }

  function PostIds(posts: seq<Post>): set<PostId>
  {
    set p | p in posts :: p.id
  }

  /** `request.user.is_authenticated`: a session user that is registered (the
      framework turns the session of a deleted user into an anonymous one). */
  predicate Authenticated(users: seq<User>, viewer: Option<UserId>)
  {
    viewer.Some? && viewer.value in UserIds(users)
  }

  /** `User.objects.get(username=...)`. */
  function FindUser(users: seq<User>, username: string): (r: Option<User>)
    ensures r.Some? ==> r.value in users && r.value.username == username
    ensures r.None? ==> forall u :: u in users ==> u.username != username
  {
    if users == [] then None
    else if users[0].username == username then Some(users[0])
    else FindUser(users[1..], username)
  }

  /** `Group.objects.get(slug=...)`. */
  function FindGroup(groups: seq<Group>, slug: string): (r: Option<Group>)
    ensures r.Some? ==> r.value in groups && r.value.slug == slug
    ensures r.None? ==> forall g :: g in groups ==> g.slug != slug
  {
    if groups == [] then None
    else if groups[0].slug == slug then Some(groups[0])
    else FindGroup(groups[1..], slug)
  }

  /** `Post.objects.get(pk=...)`. */
  function FindPost(posts: seq<Post>, id: PostId): (r: Option<Post>)
    ensures r.Some? ==> r.value in posts && r.value.id == id
    ensures r.None? ==> id !in PostIds(posts)
  {
    if posts == [] then None
    else if posts[0].id == id then Some(posts[0])
    else FindPost(posts[1..], id)
  }

  // The integrity rules of the database. Primary keys are unique and below
  // the store's id counter, slugs and usernames are unique, foreign keys
  // point at existing rows, and the follow table obeys its unique constraint.

  ghost predicate UsersValid(users: seq<User>, nextId: nat)
  {
    && NoDuplicates(users)
    && (forall u, v :: u in users && v in users && u.id == v.id ==> u == v)
    && (forall u, v :: u in users && v in users && u.username == v.username ==> u == v)
    && (forall u :: u in users ==> u.id < nextId)
  }

  ghost predicate GroupsValid(groups: seq<Group>, nextId: nat)
  {
    && NoDuplicates(groups)
    && (forall g, h :: g in groups && h in groups && g.id == h.id ==> g == h)
    && (forall g, h :: g in groups && h in groups && g.slug == h.slug ==> g == h)
    && (forall g :: g in groups ==> g.id < nextId)
  }

  ghost predicate PostsValid(posts: seq<Post>, users: seq<User>, groups: seq<Group>, nextId: nat, clock: nat)
  {
    && NewestFirst(posts)
    && (forall p, q :: p in posts && q in posts && p.id == q.id ==> p == q)
    && (forall p :: p in posts ==> p.id < nextId && p.pubDate < clock)
    && (forall p :: p in posts ==> p.author in UserIds(users))
    && (forall p :: p in posts && p.group.Some? ==> p.group.value in GroupIds(groups))
  }

  ghost predicate CommentsValid(comments: seq<Comment>, posts: seq<Post>, users: seq<User>, nextId: nat, clock: nat)
  {
    && NoDuplicates(comments)
    && (forall c, d :: c in comments && d in comments && c.id == d.id ==> c == d)
    && (forall c :: c in comments ==> c.id < nextId && c.created < clock)
    && (forall c :: c in comments ==> c.post in PostIds(posts) && c.author in UserIds(users))
  }

  /** The `already_following` unique constraint, no self-follows, and both
      ends of every edge registered users. */
  ghost predicate FollowsValid(follows: seq<Follow>, users: seq<User>)
  {
    && NoDuplicates(follows)
    && (forall f :: f in follows ==> f.user != f.author)
    && (forall f :: f in follows ==> f.user in UserIds(users) && f.author in UserIds(users))
  }

  ghost predicate StoreValid(users: seq<User>, groups: seq<Group>, posts: seq<Post>, comments: seq<Comment>,
                             follows: seq<Follow>, nextId: nat, clock: nat)
  {
    && UsersValid(users, nextId)
    && GroupsValid(groups, nextId)
    && PostsValid(posts, users, groups, nextId, clock)
    && CommentsValid(comments, posts, users, nextId, clock)
    && FollowsValid(follows, users)
  }

  // on_delete rules.

  /** Deleting a group: `Post.group` is `SET_NULL`. Every post stays, in
      place, and only a reference to that group is cleared. */
  function DetachGroup(posts: seq<Post>, gid: GroupId): (r: seq<Post>)
    ensures |r| == |posts|
    ensures forall i :: 0 <= i < |r| ==>
      && r[i].id == posts[i].id && r[i].text == posts[i].text
      && r[i].pubDate == posts[i].pubDate && r[i].author == posts[i].author
    ensures forall i :: 0 <= i < |r| ==> r[i].group == if posts[i].group == Some(gid) then None else posts[i].group
    ensures forall p :: p in r ==> p.group != Some(gid)
  {
    seq(|posts|, i requires 0 <= i < |posts| =>
      if posts[i].group == Some(gid) then posts[i].(group := None) else posts[i])
  }

  function GroupsWithout(groups: seq<Group>, gid: GroupId): (r: seq<Group>)
    ensures forall g :: g in r <==> g in groups && g.id != gid
  {
    Filter(groups, (g: Group) => g.id != gid)
  }

  /** Deleting a post: the post goes. */
  function PostsWithout(posts: seq<Post>, pid: PostId): (r: seq<Post>)
    ensures forall p :: p in r <==> p in posts && p.id != pid
  {
    Filter(posts, (p: Post) => p.id != pid)
  }

  /** Deleting a post: `Comment.post` is `CASCADE`. */
  function CommentsWithoutPost(comments: seq<Comment>, pid: PostId): (r: seq<Comment>)
    ensures forall c :: c in r <==> c in comments && c.post != pid
  {
    Filter(comments, (c: Comment) => c.post != pid)
  }

  /** The ids of the posts written by `u`. */
  function PostIdsBy(posts: seq<Post>, u: UserId): set<PostId>
  {
    set p | p in posts && p.author == u :: p.id
  }

  /** Deleting a user: `Post.author` is `CASCADE`. */
  function PostsWithoutAuthor(posts: seq<Post>, u: UserId): (r: seq<Post>)
    ensures forall p :: p in r <==> p in posts && p.author != u
  {
    Filter(posts, (p: Post) => p.author != u)
  }

  /** Deleting a user: `Comment.author` is `CASCADE`, and so, through the
      user's posts, is `Comment.post`. */
  function CommentsWithoutUser(comments: seq<Comment>, posts: seq<Post>, u: UserId): (r: seq<Comment>)
    ensures forall c :: c in r <==> c in comments && c.author != u && c.post !in PostIdsBy(posts, u)
  {
    var gone := PostIdsBy(posts, u);
    Filter(comments, (c: Comment) => c.author != u && c.post !in gone)
  }

  /** Deleting a user: `Follow.user` and `Follow.author` are `CASCADE`. */
  function FollowsWithoutUser(follows: seq<Follow>, u: UserId): (r: seq<Follow>)
    ensures forall f :: f in r <==> f in follows && f.user != u && f.author != u
  {
    Filter(follows, (f: Follow) => f.user != u && f.author != u)
  }

  function UsersWithout(users: seq<User>, u: UserId): (r: seq<User>)
    ensures forall v :: v in r <==> v in users && v.id != u
  {
    Filter(users, (v: User) => v.id != u)
  }

  /** Clearing a group's references keeps every post id, the order and
      every other field of the posts. */
  lemma DetachGroupKeeps(posts: seq<Post>, users: seq<User>, groups: seq<Group>, nextId: nat, clock: nat, gid: GroupId)
    requires PostsValid(posts, users, groups, nextId, clock)
    ensures PostIds(DetachGroup(posts, gid)) == PostIds(posts)
    ensures NewestFirst(DetachGroup(posts, gid))
    ensures forall p, q :: p in DetachGroup(posts, gid) && q in DetachGroup(posts, gid) && p.id == q.id ==> p == q
    ensures forall p :: p in DetachGroup(posts, gid) ==>
      p.id < nextId && p.pubDate < clock && p.author in UserIds(users)
  {
    var posts' := DetachGroup(posts, gid);
    forall id | id in PostIds(posts) ensures id in PostIds(posts') {
      var i :| 0 <= i < |posts| && posts[i].id == id;
      assert posts'[i] in posts';
    }
    forall p, q | p in posts' && q in posts' && p.id == q.id ensures p == q {
      var i :| 0 <= i < |posts'| && posts'[i] == p;
      var j :| 0 <= j < |posts'| && posts'[j] == q;
      assert posts[i] in posts && posts[j] in posts;
    }
    forall p | p in posts' ensures p.id < nextId && p.pubDate < clock && p.author in UserIds(users) {
      var i :| 0 <= i < |posts'| && posts'[i] == p;
      assert posts[i] in posts;
    }
  }

  /** After the group is deleted, the posts refer only to the remaining groups. */
  lemma DetachGroupRefs(posts: seq<Post>, groups: seq<Group>, gid: GroupId)
    requires forall p :: p in posts && p.group.Some? ==> p.group.value in GroupIds(groups)
    ensures forall p :: p in DetachGroup(posts, gid) && p.group.Some? ==> p.group.value in GroupIds(GroupsWithout(groups, gid))
  {
    var groups', posts' := GroupsWithout(groups, gid), DetachGroup(posts, gid);
    forall p | p in posts' && p.group.Some? ensures p.group.value in GroupIds(groups') {
      var i :| 0 <= i < |posts'| && posts'[i] == p;
      assert posts[i] in posts;
      var g :| g in groups && g.id == p.group.value;
      assert g in groups';
    }
  }

  /** Clearing a group's references keeps the posts table consistent with the
      groups that remain, and keeps every post id. */
  lemma DetachGroupValid(posts: seq<Post>, users: seq<User>, groups: seq<Group>, nextId: nat, clock: nat, gid: GroupId)
    requires PostsValid(posts, users, groups, nextId, clock)
    ensures PostIds(DetachGroup(posts, gid)) == PostIds(posts)
    ensures PostsValid(DetachGroup(posts, gid), users, GroupsWithout(groups, gid), nextId, clock)
  {
    DetachGroupKeeps(posts, users, groups, nextId, clock, gid);
    DetachGroupRefs(posts, groups, gid);
  }

  /** Deleting a group keeps the database consistent. */
  lemma DeleteGroupValid(users: seq<User>, groups: seq<Group>, posts: seq<Post>, comments: seq<Comment>,
                         follows: seq<Follow>, nextId: nat, clock: nat, gid: GroupId)
    requires StoreValid(users, groups, posts, comments, follows, nextId, clock)
    ensures StoreValid(users, GroupsWithout(groups, gid), DetachGroup(posts, gid), comments, follows, nextId, clock)
  {
    FilterNoDuplicates(groups, (g: Group) => g.id != gid);
    DetachGroupValid(posts, users, groups, nextId, clock, gid);
  }

  /** Deleting a post (and with it its comments) keeps the database consistent. */
  lemma DeletePostValid(users: seq<User>, groups: seq<Group>, posts: seq<Post>, comments: seq<Comment>,
                        follows: seq<Follow>, nextId: nat, clock: nat, pid: PostId)
    requires StoreValid(users, groups, posts, comments, follows, nextId, clock)
    ensures StoreValid(users, groups, PostsWithout(posts, pid), CommentsWithoutPost(comments, pid), follows, nextId, clock)
  {
    var posts', comments' := PostsWithout(posts, pid), CommentsWithoutPost(comments, pid);
    FilterNewestFirst(posts, (p: Post) => p.id != pid);
    FilterNoDuplicates(comments, (c: Comment) => c.post != pid);
    forall c | c in comments' ensures c.post in PostIds(posts') {
      var p :| p in posts && p.id == c.post;
      assert p in posts';
    }
  }

  /** Deleting a user removes exactly that user's id. */
  lemma UsersWithoutIds(users: seq<User>, u: UserId)
    ensures UserIds(UsersWithout(users, u)) == UserIds(users) - {u}
  {
    var users' := UsersWithout(users, u);
    forall id | id in UserIds(users) - {u} ensures id in UserIds(users') {
      var v :| v in users && v.id == id;
      assert v in users';
    }
  }

  /** After a user's deletion every remaining comment is on a remaining post. */
  lemma CommentsWithoutUserRefs(comments: seq<Comment>, posts: seq<Post>, u: UserId)
    requires forall c :: c in comments ==> c.post in PostIds(posts)
    ensures forall c :: c in CommentsWithoutUser(comments, posts, u) ==> c.post in PostIds(PostsWithoutAuthor(posts, u))
  {
    var posts' := PostsWithoutAuthor(posts, u);
    forall c | c in CommentsWithoutUser(comments, posts, u) ensures c.post in PostIds(posts') {
      var p :| p in posts && p.id == c.post;
      assert p in posts';
    }
  }

  /** Deleting a user (and with them their posts, every comment by them or on
      their posts, and every follow edge that touches them) keeps the
      database consistent. */
  lemma DeleteUserValid(users: seq<User>, groups: seq<Group>, posts: seq<Post>, comments: seq<Comment>,
                        follows: seq<Follow>, nextId: nat, clock: nat, u: UserId)
    requires StoreValid(users, groups, posts, comments, follows, nextId, clock)
    ensures StoreValid(UsersWithout(users, u), groups, PostsWithoutAuthor(posts, u),
                       CommentsWithoutUser(comments, posts, u), FollowsWithoutUser(follows, u), nextId, clock)
  {
    var gone := PostIdsBy(posts, u);
    FilterNoDuplicates(users, (v: User) => v.id != u);
    FilterNewestFirst(posts, (p: Post) => p.author != u);
    FilterNoDuplicates(comments, (c: Comment) => c.author != u && c.post !in gone);
    FilterNoDuplicates(follows, (f: Follow) => f.user != u && f.author != u);
    UsersWithoutIds(users, u);
    CommentsWithoutUserRefs(comments, posts, u);
  }
}
