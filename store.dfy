/** The blog's database as one object: the rows of every table of
    yatube/posts/models.py, changed in place by the mutating views of
    yatube/posts/views.py and by the `on_delete` rules. */
module Blog {
  import opened Common
  import opened Models
  import opened Actions

  class Store {
    var users: seq<User>
    var groups: seq<Group>
    /** Newest first: the order of every `Post` queryset. */
    var posts: seq<Post>
    /** In creation order. */
    var comments: seq<Comment>
    var follows: seq<Follow>
    /** The next primary key handed out. */
    var nextId: nat
    /** The time stamp of the next row created. */
    var clock: nat

    ghost predicate Valid()
      reads this
    {
      StoreValid(users, groups, posts, comments, follows, nextId, clock)
    }

    constructor ()
      ensures Valid()
      ensures users == [] && groups == [] && posts == [] && comments == [] && follows == []
    {
      users, groups, posts, comments, follows := [], [], [], [], [];
      nextId, clock := 0, 0;
    }

    /** `User.objects.create_user(username=...)`: a new user, unless the
        (unique) username is taken. */
    method CreateUser(username: string) returns (r: Option<UserId>)
      requires Valid()
      modifies this
      ensures Valid()
      ensures (forall u :: u in old(users) ==> u.username != username) ==>
        r == Some(old(nextId)) && users == old(users) + [User(old(nextId), username)] && nextId == old(nextId) + 1
      ensures (exists u :: u in old(users) && u.username == username) ==>
        r == None && users == old(users) && nextId == old(nextId)
      ensures groups == old(groups) && posts == old(posts) && comments == old(comments)
      ensures follows == old(follows) && clock == old(clock)
    {
      if FindUser(users, username).Some? {
        return None;
      }
      var users' := users + [User(nextId, username)];
      r := Some(nextId);
      users, nextId := users', nextId + 1;
      CreateUserValid(old(users), groups, posts, comments, follows, old(nextId), clock, username);
    }

    /** `Group.objects.create(title=..., slug=..., description=...)`: a new
        group, unless the (unique) slug is taken. */
    method CreateGroup(title: string, slug: string, description: string) returns (r: Option<GroupId>)
      requires Valid()
      modifies this
      ensures Valid()
      ensures (forall g :: g in old(groups) ==> g.slug != slug) ==>
        && r == Some(old(nextId))
        && groups == old(groups) + [Group(old(nextId), title, slug, description)]
        && nextId == old(nextId) + 1
      ensures (exists g :: g in old(groups) && g.slug == slug) ==>
        r == None && groups == old(groups) && nextId == old(nextId)
      ensures users == old(users) && posts == old(posts) && comments == old(comments)
      ensures follows == old(follows) && clock == old(clock)
    {
      if FindGroup(groups, slug).Some? {
        return None;
      }
      var groups' := groups + [Group(nextId, title, slug, description)];
      r := Some(nextId);
      groups, nextId := groups', nextId + 1;
      CreateGroupValid(users, old(groups), posts, comments, follows, old(nextId), clock, title, slug, description);
    }

    /** `post_create`: a logged-in user with a valid form adds exactly one
        post, written by them, at the head of every feed it belongs to;
        otherwise nothing is stored. */
    method PostCreate(viewer: Option<UserId>, form: Option<PostForm>) returns (r: Outcome)
      requires Valid()
      modifies this
      ensures Valid()
      ensures !Authenticated(old(users), viewer) ==> r == LoginRequired
      ensures Authenticated(old(users), viewer) ==> r == if PostFormValid(form, old(groups)) then Saved else FormShown
      ensures r == Saved ==>
        && viewer.Some? && form.Some?
        && posts == [NewPost(form.value, old(nextId), old(clock), viewer.value)] + old(posts)
        && nextId == old(nextId) + 1 && clock == old(clock) + 1
      ensures r == Saved ==>
        && viewer.Some? && form.Some? && posts != [] && posts[1..] == old(posts)
        && posts[0].author == viewer.value && posts[0].text == form.value.text && posts[0].group == form.value.group
        && posts[0].id !in PostIds(old(posts))
        && forall q :: q in old(posts) ==> q.pubDate < posts[0].pubDate
      ensures r != Saved ==> posts == old(posts) && nextId == old(nextId) && clock == old(clock)
      ensures users == old(users) && groups == old(groups) && comments == old(comments) && follows == old(follows)
    {
      if !Authenticated(users, viewer) {
        return LoginRequired;
      }
      if !PostFormValid(form, groups) {
        return FormShown;
      }
      var posts' := [NewPost(form.value, nextId, clock, viewer.value)] + posts;
      CreateValid(users, groups, posts, comments, follows, nextId, clock, form.value, viewer.value);
      posts, nextId, clock := posts', nextId + 1, clock + 1;
      r := Saved;
    }

    /** `post_edit`: only the author, with a valid form, changes the post's
        text and group; its id, author, publication date and place stay, and
        in every other case nothing changes. */
    method PostEdit(viewer: Option<UserId>, pid: PostId, form: Option<PostForm>) returns (r: Outcome)
      requires Valid()
      modifies this
      ensures Valid()
      ensures !Authenticated(old(users), viewer) ==> r == LoginRequired
      ensures Authenticated(old(users), viewer) && pid !in PostIds(old(posts)) ==> r == NotFound
      ensures Authenticated(old(users), viewer) ==> forall p :: p in old(posts) && p.id == pid ==>
        r == if p.author != viewer.value then NotAuthor
             else if PostFormValid(form, old(groups)) then Saved
             else FormShown
      ensures r == Saved ==> form.Some? && posts == EditedPosts(old(posts), pid, form.value)
      ensures r != Saved ==> posts == old(posts)
      ensures users == old(users) && groups == old(groups) && comments == old(comments) && follows == old(follows)
      ensures nextId == old(nextId) && clock == old(clock)
    {
      if !Authenticated(users, viewer) {
        return LoginRequired;
      }
      var found := FindPost(posts, pid);
      if found.None? {
        return NotFound;
      }
      if found.value.author != viewer.value {
        return NotAuthor;
      }
      if !PostFormValid(form, groups) {
        return FormShown;
      }
      var posts' := EditedPosts(posts, pid, form.value);
      posts := posts';
      EditValid(users, groups, old(posts), comments, follows, nextId, clock, pid, form.value);
      r := Saved;
    }

    /** `add_comment`: a logged-in user's valid comment on an existing post is
        stored, linked to that post and written by them; an invalid one is
        dropped. */
    method AddComment(viewer: Option<UserId>, pid: PostId, text: Option<string>) returns (r: Outcome)
      requires Valid()
      modifies this
      ensures Valid()
      ensures !Authenticated(old(users), viewer) ==> r == LoginRequired
      ensures Authenticated(old(users), viewer) && pid !in PostIds(old(posts)) ==> r == NotFound
      ensures Authenticated(old(users), viewer) && pid in PostIds(old(posts)) ==>
        r == if CommentFormValid(text) then Saved else NothingSaved
      ensures r == Saved ==>
        && viewer.Some? && text.Some?
        && comments == old(comments) + [NewComment(text.value, old(nextId), pid, old(clock), viewer.value)]
        && nextId == old(nextId) + 1 && clock == old(clock) + 1
      ensures r == Saved ==>
        && viewer.Some? && text.Some? && |comments| == |old(comments)| + 1
        && comments[..|old(comments)|] == old(comments)
        && comments[|old(comments)|].post == pid && pid in PostIds(posts)
        && comments[|old(comments)|].author == viewer.value && comments[|old(comments)|].text == text.value
        && forall d :: d in old(comments) ==> d.id != comments[|old(comments)|].id
      ensures r != Saved ==> comments == old(comments) && nextId == old(nextId) && clock == old(clock)
      ensures users == old(users) && groups == old(groups) && posts == old(posts) && follows == old(follows)
    {
      if !Authenticated(users, viewer) {
        return LoginRequired;
      }
      if FindPost(posts, pid).None? {
        return NotFound;
      }
      if !CommentFormValid(text) {
        return NothingSaved;
      }
      var comments' := comments + [NewComment(text.value, nextId, pid, clock, viewer.value)];
      CommentValid(users, groups, posts, comments, follows, nextId, clock, text.value, pid, viewer.value);
      comments, nextId, clock := comments', nextId + 1, clock + 1;
      r := Saved;
    }

    /** `profile_follow`: the edge (viewer, author) is inserted unless the
        author is the viewer or the edge exists; nothing else changes. */
    method ProfileFollow(viewer: Option<UserId>, username: string) returns (r: Outcome)
      requires Valid()
      modifies this
      ensures Valid()
      ensures !Authenticated(old(users), viewer) ==> r == LoginRequired
      ensures Authenticated(old(users), viewer) && (forall u :: u in old(users) ==> u.username != username) ==>
        r == NotFound
      ensures Authenticated(old(users), viewer) ==> forall a :: a in old(users) && a.username == username ==>
        && follows == Followed(old(follows), viewer.value, a.id)
        && r == if follows == old(follows) then NothingSaved else Saved
      ensures r != Saved ==> follows == old(follows)
      ensures users == old(users) && groups == old(groups) && posts == old(posts) && comments == old(comments)
      ensures nextId == old(nextId) && clock == old(clock)
    {
      if !Authenticated(users, viewer) {
        return LoginRequired;
      }
      var author := FindUser(users, username);
      if author.None? {
        return NotFound;
      }
      var u, a := viewer.value, author.value.id;
      if a != u && Follow(u, a) !in follows {
        follows := follows + [Follow(u, a)];
        r := Saved;
      } else {
        r := NothingSaved;
      }
      FollowedValid(users, groups, posts, comments, old(follows), nextId, clock, u, a);
    }

    /** `profile_unfollow`: the edge (viewer, author) is removed and no other;
        a missing edge is an error and changes nothing. */
    method ProfileUnfollow(viewer: Option<UserId>, username: string) returns (r: Outcome)
      requires Valid()
      modifies this
      ensures Valid()
      ensures !Authenticated(old(users), viewer) ==> r == LoginRequired
      ensures Authenticated(old(users), viewer) && (forall u :: u in old(users) ==> u.username != username) ==>
        r == NotFound
      ensures Authenticated(old(users), viewer) ==> forall a :: a in old(users) && a.username == username ==>
        match Unfollowed(old(follows), viewer.value, a.id)
        case None => r == DoesNotExist
        case Some(rest) => r == Saved && follows == rest
      ensures r != Saved ==> follows == old(follows)
      ensures users == old(users) && groups == old(groups) && posts == old(posts) && comments == old(comments)
      ensures nextId == old(nextId) && clock == old(clock)
    {
      if !Authenticated(users, viewer) {
        return LoginRequired;
      }
      var author := FindUser(users, username);
      if author.None? {
        return NotFound;
      }
      var u, a := viewer.value, author.value.id;
      var rest := Unfollowed(follows, u, a);
      if rest.None? {
        return DoesNotExist;
      }
      follows := rest.value;
      UnfollowedValid(users, groups, posts, comments, old(follows), nextId, clock, u, a);
      r := Saved;
    }

    /** Deleting a group: its posts stay, with no group. */
    method DeleteGroup(gid: GroupId)
      requires Valid()
      modifies this
      ensures Valid()
      ensures groups == GroupsWithout(old(groups), gid)
      ensures posts == DetachGroup(old(posts), gid)
      ensures users == old(users) && comments == old(comments) && follows == old(follows)
      ensures nextId == old(nextId) && clock == old(clock)
    {
      var groups', posts' := GroupsWithout(groups, gid), DetachGroup(posts, gid);
      groups, posts := groups', posts';
      DeleteGroupValid(users, old(groups), old(posts), comments, follows, nextId, clock, gid);
    }

    /** Deleting a post: its comments go with it. */
    method DeletePost(pid: PostId)
      requires Valid()
      modifies this
      ensures Valid()
      ensures posts == PostsWithout(old(posts), pid)
      ensures comments == CommentsWithoutPost(old(comments), pid)
      ensures users == old(users) && groups == old(groups) && follows == old(follows)
      ensures nextId == old(nextId) && clock == old(clock)
    {
      var posts', comments' := PostsWithout(posts, pid), CommentsWithoutPost(comments, pid);
      posts, comments := posts', comments';
      DeletePostValid(users, groups, old(posts), old(comments), follows, nextId, clock, pid);
    }

    /** Deleting a user: their posts, every comment by them or on their posts,
        and every follow edge from or to them go with them. */
    method DeleteUser(u: UserId)
      requires Valid()
      modifies this
      ensures Valid()
      ensures users == UsersWithout(old(users), u)
      ensures posts == PostsWithoutAuthor(old(posts), u)
      ensures comments == CommentsWithoutUser(old(comments), old(posts), u)
      ensures follows == FollowsWithoutUser(old(follows), u)
      ensures groups == old(groups) && nextId == old(nextId) && clock == old(clock)
    {
      var users', posts' := UsersWithout(users, u), PostsWithoutAuthor(posts, u);
      var comments', follows' := CommentsWithoutUser(comments, posts, u), FollowsWithoutUser(follows, u);
      users, posts, comments, follows := users', posts', comments', follows';
      DeleteUserValid(old(users), groups, old(posts), old(comments), old(follows), nextId, clock, u);
    }
  }
}
