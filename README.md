# yatube posts: store, feeds and pagination

A Dafny model of the core of the `posts` app of the yatube blog (a Django
project): the tables of `yatube/posts/models.py` with their integrity rules,
ordering and `on_delete` rules; the read-only views of
`yatube/posts/views.py` (`index`, `group_posts`, `profile`, `post_detail`,
`follow_index`) as pure functions over the stored rows; the mutating views
(`post_create`, `post_edit`, `add_comment`, `profile_follow`,
`profile_unfollow`) and the deletions as methods of one `Store` class; and
`paginator_function` of `yatube/posts/utils.py` with the semantics of
Django's `Paginator.get_page`.

Modules, one per file:

- `Common` (common.dfy): `Option`, `Result`, and `Filter`, the order-keeping
  selection that every queryset `.filter(...)` is, with its lemmas
  (multiplicities, concatenation, absence of duplicates).
- `Pagination` (pagination.dfy): `num_pages`, `validate_number` on the
  `?page=` parameter, `get_page`, and the page slices. Proved: page bounds,
  every page but the last is full, the pages concatenate back to the input,
  and the 13-post example the tests use.
- `Models` (models.py's records): `__str__` of posts and groups, the
  newest-first ordering (`NewestFirst`), the invariants of the database and
  one function per `on_delete` rule. The invariants are gathered in
  `StoreValid`: `UsersValid` (unique ids and usernames), `GroupsValid`
  (unique ids and slugs), `PostsValid` (newest first, unique ids, registered
  authors, existing groups), `CommentsValid` (existing posts and authors) and
  `FollowsValid` (the `already_following` constraint, no self-follows, both
  ends registered). "Keeps every invariant" in the rows below means keeps
  `StoreValid`. Each deletion is proved to keep it.
- `Feeds` (the read-only views): the contents and order of each feed, the
  404 and login cases, and the page rendered.
- `Actions` (the rules of the mutating views as functions of the rows), each
  proved to keep the invariants.
- `Blog` (store.dfy): `class Store` holding the tables as `seq` fields, with
  one method per mutating view and per deletion. Each method requires and
  ensures `Valid()` and states its whole new state in terms of the `Actions`
  and `Models` functions.

State and environment:

- Posts are stored newest first, the order `Meta.ordering = ('-pub_date',)`
  gives every `Post` queryset.
- `pub_date` and `Comment.created` are the value of a store clock that
  advances on each creation, so creation times are strictly increasing.
- Primary keys come from one counter `nextId`.
- The request's user is a parameter `viewer: Option<UserId>`: `None` for an
  anonymous visitor. A viewer is authenticated when the id belongs to a
  registered user.
- The `?page=` query value is a parameter `Option<string>`.
- The submitted forms are parameters. `None` stands for an unbound form (a
  GET request, or an empty POST for the forms built from
  `request.POST or None`).
- The page size `NUMB_OF_POSTS` is the constant `PostsPerPage = 10`. The
  constants module is not part of this model; the value is the one the
  pagination tests in `yatube/posts/tests/test_views.py:305-349` rely on
  (13 posts give pages of 10 and 3).
- `LIMIT_POSTS` (also from that module) is a parameter of `PostName`.

## Model

| member | source | states |
|---|---|---|
| Common.Filter | yatube/posts/views.py:28 | a queryset filter: an element is in the result iff it is in the input and satisfies the condition; never longer than the input |
| Common.FilterCount | yatube/posts/views.py:41 | filtering keeps every copy of a kept row and drops every copy of any other row |
| Common.FilterAppend | yatube/posts/views.py:28 | filtering distributes over concatenation |
| Common.FilterAll | yatube/posts/views.py:28 | a filter that every row passes returns the sequence unchanged |
| Common.NoDuplicatesCount | yatube/posts/models.py:107-113 | in a table without duplicate rows every row occurs at most once |
| Common.FilterNoDuplicates | yatube/posts/models.py:107-113 | filtering a table without duplicate rows gives one without duplicate rows |
| Pagination.NumPages | yatube/posts/utils.py:6 | `num_pages` is at least 1, so an empty list still has one page |
| Pagination.NumPagesBounds | yatube/posts/utils.py:6 | `num_pages` is the least positive page count whose pages hold all items |
| Pagination.ParseDecimal | yatube/posts/utils.py:7 | a page number rendered in decimal is read back as that number |
| Pagination.DecimalValue | yatube/posts/utils.py:7 | the digits of n have the value n |
| Pagination.ValidateNumber | yatube/posts/utils.py:7-8 | `validate_number`: a missing or non-integer parameter is `PageNotAnInteger`, an integer outside 1..num_pages is `EmptyPage`, otherwise that page number; both directions |
| Pagination.PageNumber | yatube/posts/utils.py:7-8 | `get_page` falls back to page 1 for a missing or non-integer parameter and to the last page for an out-of-range one |
| Pagination.PageSlice | yatube/posts/utils.py:8 | page k is the contiguous run of the input from item (k-1)*n, with no re-sorting; at most n items, exactly n unless it is the last page, and the last page ends at the end of the input |
| Pagination.PageBounds | yatube/posts/utils.py:6-8 | where page k starts and ends relative to the item count |
| Pagination.GetPage | yatube/posts/utils.py:4-10 | `paginator_function`: the page has the input's page count, and its number is the one `get_page` settles on for `request.GET.get('page')` (`PageNumber`: 1 for a missing or non-integer parameter, the last page out of range); its items are the slice of that number, at most n of them |
| Pagination.PageSplit | yatube/posts/utils.py:6-8 | the items from page k onward are page k followed by the items from page k+1 onward |
| Pagination.PagesFromSuffix | yatube/posts/utils.py:6-8 | pages k..num_pages, concatenated, are the input from item (k-1)*n onward |
| Pagination.PagesConcatenate | yatube/posts/utils.py:6-8 | concatenating pages 1..num_pages reproduces the input exactly |
| Pagination.PageOfIndex | yatube/posts/utils.py:6-8 | item i is item i mod n of page i div n + 1 |
| Pagination.ThirteenPosts | yatube/posts/tests/test_views.py:294-349 | with 13 posts, page 1 has 10 posts, `?page=2` has 3, `?page=3` falls back to page 2 and `?page=abc` to page 1 |
| Models.PostName | yatube/posts/models.py:63-65 | `str(post)` is the prefix of the text of length min(len(text), LIMIT_POSTS) |
| Models.NewestFirstCons | yatube/posts/models.py:61 | a post newer than every post of a newest-first sequence, put in front, keeps it newest first |
| Models.FilterNewestFirst | yatube/posts/models.py:61 | any filter of a newest-first queryset is newest first |
| Models.FindUser | yatube/posts/views.py:40 | the user with that username, or none when no user has it |
| Models.FindGroup | yatube/posts/views.py:26 | the group with that slug, or none when no group has it |
| Models.FindPost | yatube/posts/views.py:58 | the post with that id, or none when no post has it |
| Models.DetachGroup | yatube/posts/models.py:43-47 | `SET_NULL`: every post stays, in place, with its id, text, date and author; exactly the references to the deleted group become null |
| Models.GroupsWithout | yatube/posts/models.py:9-14 | deleting a group removes exactly the rows with that id |
| Models.PostsWithout | yatube/posts/models.py:25 | deleting a post removes exactly the rows with that id |
| Models.CommentsWithoutPost | yatube/posts/models.py:71-76 | `Comment.post` `CASCADE`: exactly the comments on the deleted post go |
| Models.PostsWithoutAuthor | yatube/posts/models.py:37-42 | `Post.author` `CASCADE`: exactly the deleted user's posts go |
| Models.CommentsWithoutUser | yatube/posts/models.py:71-82 | `Comment.author` `CASCADE` together with `Comment.post` through the user's posts: exactly the comments by the user or on the user's posts go |
| Models.FollowsWithoutUser | yatube/posts/models.py:96-105 | `Follow.user` and `Follow.author` `CASCADE`: exactly the edges with the user at either end go |
| Models.UsersWithout | yatube/posts/models.py:37-42 | deleting a user removes exactly the rows with that id |
| Models.DetachGroupKeeps | yatube/posts/models.py:43-47 | `SET_NULL` keeps the set of post ids, their uniqueness, the newest-first order, and the store's bounds on each post's id, date and author |
| Models.DetachGroupRefs | yatube/posts/models.py:43-47 | after `SET_NULL` the posts refer only to the remaining groups |
| Models.DetachGroupValid | yatube/posts/models.py:43-47 | after `SET_NULL` the posts keep their ids and refer only to the remaining groups |
| Models.DeleteGroupValid | yatube/posts/models.py:43-47 | deleting a group keeps every invariant of the database |
| Models.DeletePostValid | yatube/posts/models.py:71-76 | deleting a post and its comments keeps every invariant, with no comment left on a missing post |
| Models.UsersWithoutIds | yatube/posts/models.py:37-42 | deleting a user removes exactly that user's id from the registered ids |
| Models.CommentsWithoutUserRefs | yatube/posts/models.py:71-82 | after a user's deletion every remaining comment is on a remaining post |
| Models.DeleteUserValid | yatube/posts/models.py:37-105 | deleting a user with everything that cascades keeps every invariant, with no dangling foreign key |
| Feeds.GroupFeed | yatube/posts/views.py:28 | exactly the posts of that group, newest first |
| Feeds.AuthorFeed | yatube/posts/views.py:41 | exactly the posts of that author, newest first |
| Feeds.PostComments | yatube/posts/views.py:60 | exactly the comments on that post |
| Feeds.Repeat | yatube/posts/views.py:137 | the n rows of a join with n matching edges are that post n times |
| Feeds.FollowJoin | yatube/posts/views.py:137 | `filter(author__following__user=u)`: a post appears iff the table holds the edge (u, author) |
| Feeds.FollowJoinIsFilter | yatube/posts/views.py:137 | under the `already_following` constraint the join gives each followed post once, in feed order |
| Feeds.FollowFeed | yatube/posts/views.py:137 | exactly the posts of authors `u` follows, newest first |
| Feeds.PageNewestFirst | yatube/posts/models.py:61 | every page of a newest-first feed is newest first |
| Feeds.Index | yatube/posts/views.py:10-21 | `index`: the page of all posts that `?page=` selects (`PageNumber`), the slice of that number, newest first whenever the stored posts are |
| Feeds.GroupPosts | yatube/posts/views.py:24-34 | `group_posts`: NotFound iff no group has the slug; otherwise that group and the requested page of its feed |
| Feeds.Profile | yatube/posts/views.py:37-52 | `profile`: NotFound iff no user has the username; otherwise that author, the page of their posts, and `following` true iff the viewer has the edge to them |
| Feeds.PostDetail | yatube/posts/views.py:55-67 | `post_detail`: NotFound iff no post has the id; otherwise that post and exactly its comments |
| Feeds.FollowIndex | yatube/posts/views.py:134-143 | `follow_index`: refused iff the viewer is not logged in; otherwise the page of the viewer's follow feed |
| Feeds.PageItemsInFeed | yatube/posts/utils.py:8 | every post on a page belongs to the paginated feed |
| Feeds.GroupPageExact | yatube/posts/tests/test_views.py:173-191 | a group's page never shows a post of another group |
| Feeds.GroupPageTitle | yatube/posts/models.py:20-22 | `str(group)` on the group page of a slug is the title of the one group with that slug (slugs are unique) |
| Feeds.FollowPageExact | yatube/posts/tests/test_views.py:259-281 | a follow-feed page shows only posts of authors the viewer follows |
| Feeds.FirstPageHead | yatube/posts/utils.py:7-8 | without a `?page=` parameter the page shown is page 1 and starts with the first post of the feed |
| Feeds.FilterKeepsHead | yatube/posts/views.py:28 | a filter that keeps the first post of a queryset starts with it |
| Feeds.NewPostFirst | yatube/posts/tests/test_views.py:351-385 | a new post is the first item on page 1 of the index, of its group, of its author's profile and of each follower's feed |
| Actions.Followed | yatube/posts/views.py:150-152 | `profile_follow` on the table: nothing changes for a self-follow or an existing edge; otherwise the edge is there exactly once and no other edge changes |
| Actions.FollowTwice | yatube/posts/views.py:150-152 | following twice has the effect of following once |
| Actions.Unfollowed | yatube/posts/views.py:160-162 | `profile_unfollow` on the table: fails iff the edge is missing; otherwise exactly that edge goes, every other edge stays, and the table shrinks by one |
| Actions.RemoveEdge | yatube/posts/views.py:162 | deleting one edge leaves every other edge's count, and removes one row from a table without duplicates |
| Actions.FollowUnfollow | yatube/posts/views.py:146-163 | for u ≠ a and an edge not yet in the table, following and then unfollowing gives back the follow table as it was |
| Actions.EditedPosts | yatube/posts/views.py:104-107 | `post_edit` on the table: same number of posts, same ids, authors and dates; the edited post has the form's text and group; every other post is unchanged |
| Actions.CreateUserValid | yatube/posts/models.py:6 | a user with a fresh id and a free username keeps every invariant |
| Actions.CreateGroupValid | yatube/posts/models.py:13 | a group with a fresh id and a free slug keeps every invariant, in particular unique slugs |
| Actions.FollowedValid | yatube/posts/models.py:107-113 | following keeps the unique constraint and every other invariant |
| Actions.UnfollowedValid | yatube/posts/views.py:162 | unfollowing keeps every invariant |
| Actions.CreateValid | yatube/posts/views.py:75-78 | a new post, stored first, keeps the newest-first order and every invariant |
| Actions.EditedPostIds | yatube/posts/views.py:104-107 | editing keeps the set of post ids and their uniqueness |
| Actions.EditValid | yatube/posts/views.py:104-107 | editing with a valid form keeps every invariant |
| Actions.CommentValid | yatube/posts/views.py:125-129 | a new comment keeps every invariant |
| Blog.Store.constructor | yatube/posts/models.py:9-113 | the empty database satisfies the invariants |
| Blog.Store.CreateUser | yatube/posts/models.py:6 | a new user with a fresh id unless the username is taken; nothing else changes |
| Blog.Store.CreateGroup | yatube/posts/models.py:9-14 | a new group with a fresh id unless the slug is taken; nothing else changes |
| Blog.Store.PostCreate | yatube/posts/views.py:70-87 | refused when not logged in; a valid form puts exactly one post in front of the old ones, with a fresh id, newer than all of them, by the requester, with the form's text and group; otherwise nothing is stored |
| Blog.Store.PostEdit | yatube/posts/views.py:90-117 | login, then 404, then the author check, then the form: only the author's valid edit changes the posts, and only as `EditedPosts` does |
| Blog.Store.AddComment | yatube/posts/views.py:120-131 | login, then 404; a valid form appends exactly one comment, with a fresh id, on that existing post, by the requester, with the form's text; otherwise nothing is stored |
| Blog.Store.ProfileFollow | yatube/posts/views.py:146-154 | login, then 404; then the follow table becomes `Followed`; only the follow table can change |
| Blog.Store.ProfileUnfollow | yatube/posts/views.py:157-163 | login, then 404; a missing edge fails with `DoesNotExist` and changes nothing; otherwise the table becomes `Unfollowed` |
| Blog.Store.DeleteGroup | yatube/posts/models.py:43-47 | the group goes, its posts stay with no group, and the invariants hold |
| Blog.Store.DeletePost | yatube/posts/models.py:71-76 | the post and its comments go, and the invariants hold |
| Blog.Store.DeleteUser | yatube/posts/models.py:37-105 | the user, their posts, every comment by them or on their posts and every edge touching them go, and the invariants hold |

## Left out

- Index caching: the model has no response cache. The cache lives in code outside these three files and depends on a cache backend and a clock.
- Templates, HTTP status codes, redirect targets and URL routing are left out. Each view's result is a value: a context record, `NotFound` for `get_object_or_404`, `LoginRequired` for `login_required`, and an `Outcome` tag for the mutating views.
- Form validation is reduced to a non-empty text. For posts it also requires the chosen group, if any, to exist. Django's field cleaning (whitespace stripping, length limits) and image upload are left out.
- The `image` field of `Post` is not modelled.
- Real datetimes are replaced by a counter that grows with every creation. `verbose_name` and `help_text` are left out.
- Concurrency is left out: the race between the existence query and the insert in `profile_follow`, and transaction isolation.
- ParseInt accepts an optional sign followed by ASCII digits. Python's `int()` also accepts surrounding whitespace, `_` separators and non-ASCII digits. Those inputs give page 1 here, where Django would read them as numbers. In the other direction, ParseInt reads digit strings of any length, while CPython 3.11 and later (and the security releases 3.7.14, 3.8.14, 3.9.14 and 3.10.7) refuse `int()` on more than 4300 digits with `ValueError`, which `validate_number` turns into `PageNotAnInteger` and so page 1; on those interpreters a `?page=` of "1" followed by 4300 zeros shows page 1, where the model treats it as out of range and shows the last page. Which behaviour applies depends on the interpreter version, which the source does not pin.
- Comment order: `Comment` has no `Meta.ordering`, so the database gives no order for `post_detail`'s comments. The model keeps creation order, and `Feeds.PostDetail` promises only which comments are listed.
- Users and groups are created through the framework's own machinery: the authentication app and the admin. `CreateUser` and `CreateGroup` stand in for it, keeping usernames and slugs unique.
- The follow table holds no self-edges. That only holds while edges are created through `profile_follow`. The tests create `Follow` rows directly; such rows are not modelled.
- The page size is fixed at 10 (`PostsPerPage`). The constants module that defines `NUMB_OF_POSTS` is not part of this model.
- `profile_unfollow` on a missing edge: `Follow.objects.get` (views.py:162) raises `DoesNotExist`, which the view does not catch; the model returns `DoesNotExist`, distinct from `NotFound`, and changes nothing.
