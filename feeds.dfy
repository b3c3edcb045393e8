/** The read-only views of yatube/posts/views.py: which posts each feed
    shows, in which order, and the page of it that is rendered. */
module Feeds {
  import opened Common
  import opened Models
  import opened Pagination

  datatype ViewError = NotFound | LoginRequired

  datatype GroupContext = GroupContext(group: Group, pageObj: Page<Post>)

  datatype ProfileContext = ProfileContext(author: User, pageObj: Page<Post>, following: bool)

  datatype DetailContext = DetailContext(post: Post, comments: seq<Comment>)

  /** `Post.objects.filter(group=group)`. */
  function GroupFeed(posts: seq<Post>, gid: GroupId): (r: seq<Post>)
    ensures forall p :: p in r <==> p in posts && p.group == Some(gid)
    ensures NewestFirst(posts) ==> NewestFirst(r)
  {
    var keep := (p: Post) => p.group == Some(gid);
    FilterNewestFirst(posts, keep);
    Filter(posts, keep)
  }

  /** `Post.objects.filter(author=author)`. */
  function AuthorFeed(posts: seq<Post>, u: UserId): (r: seq<Post>)
    ensures forall p :: p in r <==> p in posts && p.author == u
    ensures NewestFirst(posts) ==> NewestFirst(r)
  {
    var keep := (p: Post) => p.author == u;
    FilterNewestFirst(posts, keep);
    Filter(posts, keep)
  }

  /** `Comment.objects.filter(post_id=post_id)`. */
  function PostComments(comments: seq<Comment>, pid: PostId): (r: seq<Comment>)
    ensures forall c :: c in r <==> c in comments && c.post == pid
  {
    Filter(comments, (c: Comment) => c.post == pid)
  }

  /** Does `u` follow the author of a post? */
  function FollowsAuthorOf(follows: seq<Follow>, u: UserId): Post -> bool
  {
    (p: Post) => Follow(u, p.author) in follows
  }

  /** n copies of one post. */
  function Repeat(p: Post, n: nat): (r: seq<Post>)
    ensures |r| == n
    ensures forall x :: x in r <==> n > 0 && x == p
  {
    var r := seq(n, _ => p);
    assert n > 0 ==> r[0] == p;
    r
  }

  /** `Post.objects.filter(author__following__user=u)`: the join of the posts
      with the follow table on the author, so a post comes out once for every
      edge (u, author) that the table holds. */
  function FollowJoin(posts: seq<Post>, follows: seq<Follow>, u: UserId): (r: seq<Post>)
    ensures forall p :: p in r <==> p in posts && Follow(u, p.author) in follows
  {
    if posts == [] then []
    else
      var edges := multiset(follows)[Follow(u, posts[0].author)];
      assert edges > 0 <==> Follow(u, posts[0].author) in follows;
      Repeat(posts[0], edges) + FollowJoin(posts[1..], follows, u)
  }

  /** Under the `already_following` constraint the join yields each followed
      post exactly once, in feed order: it is the plain filter. */
  lemma {:induction false} FollowJoinIsFilter(posts: seq<Post>, follows: seq<Follow>, u: UserId)
    requires NoDuplicates(follows)
    ensures FollowJoin(posts, follows, u) == Filter(posts, FollowsAuthorOf(follows, u))
  {
    if posts != [] {
      FollowJoinIsFilter(posts[1..], follows, u);
      NoDuplicatesCount(follows, Follow(u, posts[0].author));
    }
  }

  /** The posts the follow feed of `u` shows: those whose author `u` follows,
      newest first, each once. */
  function FollowFeed(posts: seq<Post>, follows: seq<Follow>, u: UserId): (r: seq<Post>)
    requires NoDuplicates(follows)
    ensures forall p :: p in r <==> p in posts && Follow(u, p.author) in follows
    ensures NewestFirst(posts) ==> NewestFirst(r)
  {
    FollowJoinIsFilter(posts, follows, u);
    FilterNewestFirst(posts, FollowsAuthorOf(follows, u));
    FollowJoin(posts, follows, u)
  }

  /** Every page of a newest-first feed is itself newest first. */
  lemma PageNewestFirst(feed: seq<Post>, page: Option<string>)
    ensures NewestFirst(feed) ==> NewestFirst(GetPage(feed, PostsPerPage, page).items)
  {
    var pg := GetPage(feed, PostsPerPage, page);
    var lo := (pg.number - 1) * PostsPerPage;
    var s := pg.items;
    assert s == PageSlice(feed, PostsPerPage, pg.number);
    assert s == feed[lo..lo + |s|];
    if NewestFirst(feed) {
      forall i, j | 0 <= i < j < |s| ensures s[i].pubDate > s[j].pubDate {
        assert s[i] == feed[lo + i] && s[j] == feed[lo + j];
      }
    }
  }

  /** `index`: the page of all posts that `?page=` selects; newest first,
      since the stored posts are. */
  function Index(posts: seq<Post>, page: Option<string>): (r: Page<Post>)
    ensures r.numPages == NumPages(|posts|, PostsPerPage)
    ensures 1 <= r.number <= r.numPages
    ensures r.number == PageNumber(page, r.numPages)
    ensures r.items == PageSlice(posts, PostsPerPage, r.number)
    ensures NewestFirst(posts) ==> NewestFirst(r.items)
  {
    PageNewestFirst(posts, page);
    GetPage(posts, PostsPerPage, page)
  }

  /** `group_posts`: 404 for an unknown slug, otherwise the group and a page
      of exactly its posts. */
  function GroupPosts(groups: seq<Group>, posts: seq<Post>, slug: string, page: Option<string>)
    : (r: Result<GroupContext, ViewError>)
    ensures r.Err? <==> forall g :: g in groups ==> g.slug != slug
    ensures r.Err? ==> r.error == NotFound
    ensures r.Ok? ==> r.value.group in groups && r.value.group.slug == slug
    ensures r.Ok? ==> r.value.pageObj == GetPage(GroupFeed(posts, r.value.group.id), PostsPerPage, page)
  {
    match FindGroup(groups, slug)
    case None => Err(NotFound)
    case Some(g) => Ok(GroupContext(g, GetPage(GroupFeed(posts, g.id), PostsPerPage, page)))
  }

  /** `profile`: 404 for an unknown username, otherwise a page of exactly that
      author's posts and whether the viewer follows them (an anonymous viewer
      has no id, so follows nobody). */
  function Profile(users: seq<User>, posts: seq<Post>, follows: seq<Follow>, viewer: Option<UserId>,
                   username: string, page: Option<string>): (r: Result<ProfileContext, ViewError>)
    ensures r.Err? <==> forall u :: u in users ==> u.username != username
    ensures r.Err? ==> r.error == NotFound
    ensures r.Ok? ==> r.value.author in users && r.value.author.username == username
    ensures r.Ok? ==> r.value.pageObj == GetPage(AuthorFeed(posts, r.value.author.id), PostsPerPage, page)
    ensures r.Ok? ==> (r.value.following <==> viewer.Some? && Follow(viewer.value, r.value.author.id) in follows)
  {
    match FindUser(users, username)
    case None => Err(NotFound)
    case Some(a) =>
      var following := viewer.Some? && Follow(viewer.value, a.id) in follows;
      Ok(ProfileContext(a, GetPage(AuthorFeed(posts, a.id), PostsPerPage, page), following))
  }

  /** `post_detail`: 404 for an unknown id, otherwise the post and exactly its
      comments. */
  function PostDetail(posts: seq<Post>, comments: seq<Comment>, pid: PostId): (r: Result<DetailContext, ViewError>)
    ensures r.Err? <==> pid !in PostIds(posts)
    ensures r.Err? ==> r.error == NotFound
    ensures r.Ok? ==> r.value.post in posts && r.value.post.id == pid
    ensures r.Ok? ==> forall c :: c in r.value.comments <==> c in comments && c.post == pid
  {
    match FindPost(posts, pid)
    case None => Err(NotFound)
    case Some(p) => Ok(DetailContext(p, PostComments(comments, pid)))
  }

  /** `follow_index`: login required; then a page of the follow feed. */
  function FollowIndex(users: seq<User>, posts: seq<Post>, follows: seq<Follow>, viewer: Option<UserId>,
                       page: Option<string>): (r: Result<Page<Post>, ViewError>)
    requires NoDuplicates(follows)
    ensures r.Err? <==> !Authenticated(users, viewer)
    ensures r.Err? ==> r.error == LoginRequired
    ensures r.Ok? ==> r.value == GetPage(FollowFeed(posts, follows, viewer.value), PostsPerPage, page)
  {
    if !Authenticated(users, viewer) then Err(LoginRequired)
    else Ok(GetPage(FollowFeed(posts, follows, viewer.value), PostsPerPage, page))
  }

  /** Every post on a page of a feed is a post of that feed. */
  lemma PageItemsInFeed(feed: seq<Post>, page: Option<string>, p: Post)
    requires p in GetPage(feed, PostsPerPage, page).items
    ensures p in feed
  {
    var pg := GetPage(feed, PostsPerPage, page);
    assert pg.items == PageSlice(feed, PostsPerPage, pg.number);
  }

  /** A group page shows posts of that group only: a post of another group
      never leaks in. */
  lemma GroupPageExact(groups: seq<Group>, posts: seq<Post>, slug: string, page: Option<string>, p: Post)
    requires GroupPosts(groups, posts, slug, page).Ok?
    requires p in GroupPosts(groups, posts, slug, page).value.pageObj.items
    ensures p in posts && p.group == Some(GroupPosts(groups, posts, slug, page).value.group.id)
  {
    var ctx := GroupPosts(groups, posts, slug, page).value;
    PageItemsInFeed(GroupFeed(posts, ctx.group.id), page, p);
  }

  /** The group page of a group's own slug shows that group, so the title
      it is headed with (`str(group)`) is that group's title: slugs are
      unique, so no other group can answer for it. */
  lemma GroupPageTitle(groups: seq<Group>, nextId: nat, posts: seq<Post>, g: Group, page: Option<string>)
    requires GroupsValid(groups, nextId)
    requires g in groups
    ensures GroupPosts(groups, posts, g.slug, page).Ok?
    ensures GroupPosts(groups, posts, g.slug, page).value.group == g
    ensures GroupName(GroupPosts(groups, posts, g.slug, page).value.group) == g.title
  {
    var h := GroupPosts(groups, posts, g.slug, page).value.group;
    assert h in groups && h.slug == g.slug;
  }

  /** A follow-feed page shows only posts of authors the viewer follows: an
      author's post never reaches a user without the edge to that author. */
  lemma FollowPageExact(users: seq<User>, posts: seq<Post>, follows: seq<Follow>, viewer: Option<UserId>,
                        page: Option<string>, p: Post)
    requires NoDuplicates(follows)
    requires FollowIndex(users, posts, follows, viewer, page).Ok?
    requires p in FollowIndex(users, posts, follows, viewer, page).value.items
    ensures p in posts && Follow(viewer.value, p.author) in follows
  {
    PageItemsInFeed(FollowFeed(posts, follows, viewer.value), page, p);
  }

  /** Page 1, the page shown without a `?page=` parameter, starts with the
      first post of the feed. */
  lemma FirstPageHead(feed: seq<Post>)
    requires feed != []
    ensures GetPage(feed, PostsPerPage, None).number == 1
    ensures GetPage(feed, PostsPerPage, None).items != []
    ensures GetPage(feed, PostsPerPage, None).items[0] == feed[0]
  {
    var pg := GetPage(feed, PostsPerPage, None);
    PageBounds(|feed|, PostsPerPage, 1);
    assert pg.items == feed[0..|pg.items|];
  }

  /** A filter that keeps the head of a sequence starts with it. */
  lemma FilterKeepsHead(p: Post, posts: seq<Post>, keep: Post -> bool)
    requires keep(p)
    ensures Filter([p] + posts, keep) == [p] + Filter(posts, keep)
  {
    assert ([p] + posts)[1..] == posts;
  }

  /** A just-created post (stored first) is the first item of page 1 of the
      index, of its group's feed, of its author's profile and of the follow
      feed of each follower. */
  lemma NewPostFirst(posts: seq<Post>, follows: seq<Follow>, p: Post, follower: UserId)
    requires NoDuplicates(follows)
    ensures Index([p] + posts, None).items[0] == p
    ensures p.group.Some? ==> GetPage(GroupFeed([p] + posts, p.group.value), PostsPerPage, None).items[0] == p
    ensures GetPage(AuthorFeed([p] + posts, p.author), PostsPerPage, None).items[0] == p
    ensures Follow(follower, p.author) in follows ==>
      GetPage(FollowFeed([p] + posts, follows, follower), PostsPerPage, None).items[0] == p
  {
    var all := [p] + posts;
    FirstPageHead(all);
    if p.group.Some? {
      FilterKeepsHead(p, posts, (q: Post) => q.group == p.group);
      FirstPageHead(GroupFeed(all, p.group.value));
    }
    FilterKeepsHead(p, posts, (q: Post) => q.author == p.author);
    FirstPageHead(AuthorFeed(all, p.author));
    if Follow(follower, p.author) in follows {
      FollowJoinIsFilter(all, follows, follower);
      FilterKeepsHead(p, posts, FollowsAuthorOf(follows, follower));
      FirstPageHead(FollowFeed(all, follows, follower));
    }
  }
}
