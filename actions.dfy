/** The rules the mutating views of yatube/posts/views.py apply to the
    store, as functions of the stored rows, and the proofs that each rule
    keeps the database consistent. */
module Actions {
  import opened Common
  import opened Models

  /** What a mutating view answers. */
  datatype Outcome =
    | Saved          // the change was stored; the view redirects
    | NothingSaved   // the view redirects without storing anything
    | FormShown      // the form is rendered (again); nothing is stored
    | NotFound       // get_object_or_404 found no row
    | LoginRequired  // login_required sends an anonymous visitor to log in
    | NotAuthor      // post_edit by someone other than the author redirects to the post
    | DoesNotExist   // Follow.objects.get found no edge; the view does not catch it

  /** The submitted fields of `PostForm` (the image field is not modelled). */
  datatype PostForm = PostForm(text: string, group: Option<GroupId>)

  /** `PostForm(...).is_valid()`: a bound form with a non-empty text and, if
      a group is chosen, an existing one. `None` is an unbound form. */
  predicate PostFormValid(form: Option<PostForm>, groups: seq<Group>)
  {
    && form.Some?
    && form.value.text != ""
    && (form.value.group.Some? ==> form.value.group.value in GroupIds(groups))
  }

  /** `CommentForm(...).is_valid()`: a bound form with a non-empty text. */
  predicate CommentFormValid(text: Option<string>)
  {
    text.Some? && text.value != ""
  }

  /** `profile_follow` on the follow table: insert (u, a) unless u is a or the
      edge is already there. */
  function Followed(follows: seq<Follow>, u: UserId, a: UserId): (r: seq<Follow>)
    ensures u == a || Follow(u, a) in follows ==> r == follows
    ensures u != a ==> Follow(u, a) in r
    ensures NoDuplicates(follows) && u != a ==> multiset(r)[Follow(u, a)] == 1
    ensures forall e :: e != Follow(u, a) ==> multiset(r)[e] == multiset(follows)[e]
    ensures NoDuplicates(follows) ==> NoDuplicates(r)
  {
    var e := Follow(u, a);
    NoDuplicatesCount(follows, e);
    if u != a && e !in follows then
      assert NoDuplicates(follows) ==> NoDuplicates(follows + [e]) by {
        if NoDuplicates(follows) {
          var s := follows + [e];
          forall i, j | 0 <= i < j < |s| ensures s[i] != s[j] {
            if j == |follows| {
              assert s[i] == follows[i];
            } else {
              assert s[i] == follows[i] && s[j] == follows[j];
            }
          }
        }
      }
      follows + [e]
    else follows
  }

  /** `profile_unfollow` on the follow table: `Follow.objects.get(...).delete()`
      fails when (u, a) is missing, and otherwise removes that edge alone. */
  function Unfollowed(follows: seq<Follow>, u: UserId, a: UserId): (r: Option<seq<Follow>>)
    ensures r.None? <==> Follow(u, a) !in follows
    ensures r.Some? ==> Follow(u, a) !in r.value
    ensures r.Some? ==> forall e :: e != Follow(u, a) ==> multiset(r.value)[e] == multiset(follows)[e]
    ensures r.Some? && NoDuplicates(follows) ==> NoDuplicates(r.value) && |r.value| == |follows| - 1
  {
    var e := Follow(u, a);
    if e !in follows then None
    else
      RemoveEdge(follows, e);
      Some(Filter(follows, Except(e)))
  }

  /** Every edge but `e`. */
  function Except(e: Follow): Follow -> bool
  {
    (f: Follow) => f != e
  }

  lemma RemoveEdge(follows: seq<Follow>, e: Follow)
    requires e in follows
    ensures forall f :: f != e ==> multiset(Filter(follows, Except(e)))[f] == multiset(follows)[f]
    ensures NoDuplicates(follows) ==>
      && NoDuplicates(Filter(follows, Except(e)))
      && |Filter(follows, Except(e))| == |follows| - 1
  {
    var keep := Except(e);
    var r := Filter(follows, keep);
    forall f ensures multiset(r)[f] == if keep(f) then multiset(follows)[f] else 0 {
      FilterCount(follows, keep, f);
    }
    if NoDuplicates(follows) {
      FilterNoDuplicates(follows, keep);
      NoDuplicatesCount(follows, e);
      assert multiset(r) + multiset{e} == multiset(follows);
      assert |multiset(r)| + 1 == |multiset(follows)|;
    }
  }

  /** Following twice leaves a single edge: the second follow changes nothing. */
  lemma FollowTwice(follows: seq<Follow>, u: UserId, a: UserId)
    ensures Followed(Followed(follows, u, a), u, a) == Followed(follows, u, a)
  {
  }

  /** Following an author and then unfollowing them gives back the follow
      table exactly as it was. */
  lemma FollowUnfollow(follows: seq<Follow>, u: UserId, a: UserId)
    requires u != a && Follow(u, a) !in follows
    ensures Unfollowed(Followed(follows, u, a), u, a) == Some(follows)
  {
    var e := Follow(u, a);
    var keep := Except(e);
    FilterAppend(follows, [e], keep);
    FilterAll(follows, keep);
    assert Filter([e], keep) == [];
    var g := follows + [e];
    assert Followed(follows, u, a) == g;
    assert e in g;
    assert Filter(g, keep) == follows;
    assert Unfollowed(g, u, a) == Some(Filter(g, keep));
  }

  /** The post `post_create` saves: a fresh id, the current time, the
      requester as author, and the submitted text and group. */
  function NewPost(form: PostForm, id: PostId, clock: nat, author: UserId): Post
  {
    Post(id, form.text, clock, author, form.group)
  }

  /** `post_edit` on the posts table: the post with that id gets the submitted
      text and group; its id, author and publication date stay, and so does
      every other post and the order of all of them. */
  function EditedPosts(posts: seq<Post>, pid: PostId, form: PostForm): (r: seq<Post>)
    ensures |r| == |posts|
    ensures forall i :: 0 <= i < |r| ==>
      r[i].id == posts[i].id && r[i].author == posts[i].author && r[i].pubDate == posts[i].pubDate
    ensures forall i :: 0 <= i < |r| && posts[i].id != pid ==> r[i] == posts[i]
    ensures forall i :: 0 <= i < |r| && posts[i].id == pid ==> r[i].text == form.text && r[i].group == form.group
  {
    seq(|posts|, i requires 0 <= i < |posts| =>
      if posts[i].id == pid then posts[i].(text := form.text, group := form.group) else posts[i])
  }

  /** The comment `add_comment` saves. */
  function NewComment(text: string, id: CommentId, pid: PostId, clock: nat, author: UserId): Comment
  {
    Comment(id, pid, author, text, clock)
  }

  /** Registering a user under a free username, with the next id, keeps the
      database consistent once the id counter moves on. */
  lemma CreateUserValid(users: seq<User>, groups: seq<Group>, posts: seq<Post>, comments: seq<Comment>,
                        follows: seq<Follow>, nextId: nat, clock: nat, username: string)
    requires StoreValid(users, groups, posts, comments, follows, nextId, clock)
    requires forall u :: u in users ==> u.username != username
    ensures StoreValid(users + [User(nextId, username)], groups, posts, comments, follows, nextId + 1, clock)
  {
    var users' := users + [User(nextId, username)];
    assert NoDuplicates(users') by {
      forall i, j | 0 <= i < j < |users'| ensures users'[i] != users'[j] {
        assert users'[i] == users[i];
        if j < |users| {
          assert users'[j] == users[j];
        } else {
          assert users[i] in users;
        }
      }
    }
    assert UserIds(users) <= UserIds(users') by {
      forall id | id in UserIds(users) ensures id in UserIds(users') {
        var v :| v in users && v.id == id;
        assert v in users';
      }
    }
  }

  /** Creating a group under a free slug, with the next id, keeps the database
      consistent once the id counter moves on. */
  lemma CreateGroupValid(users: seq<User>, groups: seq<Group>, posts: seq<Post>, comments: seq<Comment>,
                         follows: seq<Follow>, nextId: nat, clock: nat, title: string, slug: string, description: string)
    requires StoreValid(users, groups, posts, comments, follows, nextId, clock)
    requires forall g :: g in groups ==> g.slug != slug
    ensures StoreValid(users, groups + [Group(nextId, title, slug, description)], posts, comments, follows, nextId + 1, clock)
  {
    var groups' := groups + [Group(nextId, title, slug, description)];
    assert NoDuplicates(groups') by {
      forall i, j | 0 <= i < j < |groups'| ensures groups'[i] != groups'[j] {
        assert groups'[i] == groups[i];
        if j < |groups| {
          assert groups'[j] == groups[j];
        } else {
          assert groups[i] in groups;
        }
      }
    }
    assert GroupIds(groups) <= GroupIds(groups') by {
      forall id | id in GroupIds(groups) ensures id in GroupIds(groups') {
        var h :| h in groups && h.id == id;
        assert h in groups';
      }
    }
  }

  /** A follow edge between two registered users keeps the database consistent. */
  lemma FollowedValid(users: seq<User>, groups: seq<Group>, posts: seq<Post>, comments: seq<Comment>,
                      follows: seq<Follow>, nextId: nat, clock: nat, u: UserId, a: UserId)
    requires StoreValid(users, groups, posts, comments, follows, nextId, clock)
    requires u in UserIds(users) && a in UserIds(users)
    ensures StoreValid(users, groups, posts, comments, Followed(follows, u, a), nextId, clock)
  {
  }

  /** Removing a follow edge keeps the database consistent. */
  lemma UnfollowedValid(users: seq<User>, groups: seq<Group>, posts: seq<Post>, comments: seq<Comment>,
                        follows: seq<Follow>, nextId: nat, clock: nat, u: UserId, a: UserId)
    requires StoreValid(users, groups, posts, comments, follows, nextId, clock)
    requires Unfollowed(follows, u, a).Some?
    ensures StoreValid(users, groups, posts, comments, Unfollowed(follows, u, a).value, nextId, clock)
  {
    var r := Unfollowed(follows, u, a).value;
    forall f | f in r ensures f in follows {
      assert multiset(r)[f] == multiset(follows)[f];
    }
  }

  /** Storing a new post, newest first, with the next id and the current time,
      by a registered user and with a valid form, keeps the database
      consistent once the id counter and the clock move on. */
  lemma CreateValid(users: seq<User>, groups: seq<Group>, posts: seq<Post>, comments: seq<Comment>,
                    follows: seq<Follow>, nextId: nat, clock: nat, form: PostForm, author: UserId)
    requires StoreValid(users, groups, posts, comments, follows, nextId, clock)
    requires author in UserIds(users) && PostFormValid(Some(form), groups)
    ensures StoreValid(users, groups, [NewPost(form, nextId, clock, author)] + posts, comments, follows, nextId + 1, clock + 1)
  {
    var p := NewPost(form, nextId, clock, author);
    var posts' := [p] + posts;
    NewestFirstCons(p, posts);
    assert PostIds(posts) <= PostIds(posts') by {
      forall id | id in PostIds(posts) ensures id in PostIds(posts') {
        var q :| q in posts && q.id == id;
        assert q in posts';
      }
    }
  }

  /** Editing a post keeps the set of post ids and their uniqueness. */
  lemma EditedPostIds(posts: seq<Post>, pid: PostId, form: PostForm)
    requires forall p, q :: p in posts && q in posts && p.id == q.id ==> p == q
    ensures PostIds(EditedPosts(posts, pid, form)) == PostIds(posts)
    ensures forall p, q :: p in EditedPosts(posts, pid, form) && q in EditedPosts(posts, pid, form) && p.id == q.id ==> p == q
  {
    var posts' := EditedPosts(posts, pid, form);
    forall id | id in PostIds(posts) ensures id in PostIds(posts') {
      var i :| 0 <= i < |posts| && posts[i].id == id;
      assert posts'[i] in posts';
    }
    forall p, q | p in posts' && q in posts' && p.id == q.id ensures p == q {
      var i :| 0 <= i < |posts'| && posts'[i] == p;
      var j :| 0 <= j < |posts'| && posts'[j] == q;
      assert posts[i] in posts && posts[j] in posts;
    }
  }

  /** Editing a post with a valid form keeps the database consistent. */
  lemma EditValid(users: seq<User>, groups: seq<Group>, posts: seq<Post>, comments: seq<Comment>,
                  follows: seq<Follow>, nextId: nat, clock: nat, pid: PostId, form: PostForm)
    requires StoreValid(users, groups, posts, comments, follows, nextId, clock)
    requires PostFormValid(Some(form), groups)
    ensures StoreValid(users, groups, EditedPosts(posts, pid, form), comments, follows, nextId, clock)
  {
    var posts' := EditedPosts(posts, pid, form);
    EditedPostIds(posts, pid, form);
    forall p | p in posts' ensures p.id < nextId && p.pubDate < clock && p.author in UserIds(users)
      && (p.group.Some? ==> p.group.value in GroupIds(groups))
    {
      var i :| 0 <= i < |posts'| && posts'[i] == p;
      assert posts[i] in posts;
    }
  }

  /** Storing a comment on an existing post, by a registered user, with the
      next id and the current time, keeps the database consistent. */
  lemma CommentValid(users: seq<User>, groups: seq<Group>, posts: seq<Post>, comments: seq<Comment>,
                     follows: seq<Follow>, nextId: nat, clock: nat, text: string, pid: PostId, author: UserId)
    requires StoreValid(users, groups, posts, comments, follows, nextId, clock)
    requires pid in PostIds(posts) && author in UserIds(users)
    ensures StoreValid(users, groups, posts, comments + [NewComment(text, nextId, pid, clock, author)],
                       follows, nextId + 1, clock + 1)
  {
    var c := NewComment(text, nextId, pid, clock, author);
    var comments' := comments + [c];
    assert NoDuplicates(comments') by {
      forall i, j | 0 <= i < j < |comments'| ensures comments'[i] != comments'[j] {
        assert comments'[i] == comments[i];
        if j < |comments| {
          assert comments'[j] == comments[j];
        } else {
          assert comments[i] in comments;
        }
      }
    }
  }
}
