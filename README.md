# Blogicum: visibility and permission policy

Blogicum is a small Django blog. Users write posts, file them under a
category and a location, and comment on each other's posts. Posts can be
hidden (`is_published`), scheduled (`pub_date` in the future), or left in an
unpublished category. This project models the rules that decide:

- which posts each feed lists: the home page, a category page, and a
  profile page seen by its owner or by anyone else;
- how feeds are ordered (newest `pub_date` first), annotated with a comment
  count, and split into pages of `PAGES = 10`;
- who may open a post, and what the detail page returns otherwise;
- what the create, edit and delete views check before they change the
  database, and exactly what they change;
- what deleting a user, post, category or location cascades to;
- which record fields each form can set.

The database is a value `Store` with one map per table, keyed by integer
ids. Time is a natural number `now` passed in by the caller. The requester
is a `Viewer`: `Some(user id)`, or `None` for an anonymous visitor, who is
the author of nothing.

Files, one module each:

- `models.dfy` (`Models`): the record shapes, the store, its integrity
  invariant `Valid`, the defaults of new rows, the comment order, and the
  deletion rules (`CASCADE` and `SET_NULL`).
- `ordering.dfy` (`Ordering`): sorting a set of ids by a rank. This gives
  `order_by('-pub_date')` and the comments' `Meta.ordering`. The database
  breaks ties in an unspecified order; so does the model.
- `forms.dfy` (`Forms`): the field whitelists of `PostForm`, `CommentForm`,
  `UserForm` and `UserRegistrationForm`, when a submission is accepted, and
  how it is copied onto a record.
- `views.dfy` (`Views`): the response type, the feeds, paging, the detail
  page, the author checks of the edit and delete views, and the profile
  edit lookup and redirect.
- `blog.dfy` (`Site`): class `Blog`, holding the database in a field `db`.
  Eight of its methods are the views that change the database: creating,
  editing and deleting posts and comments, editing the profile, and
  registering. Five more (`AddCategory`, `AddLocation`, `RemoveUser`,
  `RemoveCategory`, `RemoveLocation`) match no view; they stand for the rows
  the admin site creates and deletes, with the model's defaults and
  deletion rules. Each method states the response and the exact new `db` in
  terms of the old one, and keeps `Valid()`.

Feeds and the detail page are ghost functions, because turning a set of
rows into an ordered list picks among equal `pub_date`s.

## Model

| member | source | states |
|---|---|---|
| Views.MixinQuery | blogicum/blog/views.py:22-31 | a post is kept iff it exists, is published and its `pub_date` is not after `now`; the category flag is not looked at |
| Views.Annotate | blogicum/blog/views.py:28 | each listed row carries the number of comments on its post, in the order given |
| Views.Listed | blogicum/blog/views.py:28-31 | a query result lists exactly the posts of the query, each once, with its comment count, `pub_date` non-increasing |
| Views.HomeFeed | blogicum/blog/views.py:22-42 | a post is on the home feed iff it is published, its category is set and published, and its `pub_date` has come; the feed is ordered newest first with comment counts |
| Views.OpenCategoryBySlug | blogicum/blog/views.py:153-163 | the lookup succeeds iff a published category has that slug, and returns that category |
| Views.CategoryFeed | blogicum/blog/views.py:152-164 | not found iff no published category has the slug; otherwise exactly the published, due posts in that category, newest first |
| Views.CategoryFeedIsPublic | blogicum/blog/views.py:152-164 | every post the category feed lists is publicly visible, although the feed itself adds no category-flag filter |
| Views.UserByName | blogicum/blog/views.py:499 | the lookup succeeds iff some user has that username, and returns that user |
| Views.OwnerByName | blogicum/blog/views.py:499-500 | with unique usernames, the requester is the profile's owner iff they are signed in under that username |
| Views.ProfileFeed | blogicum/blog/views.py:498-510 | not found iff the username is unknown; the owner sees every post they wrote, null or unpublished category included; anyone else sees only their publicly visible posts |
| Views.Page | blogicum/blog/views.py:39 | a page exists iff its number is between 1 and the page count (an empty feed has page 1); it holds at most 10 rows, consecutive rows of the feed, and every page before the last is full |
| Views.PageAt | blogicum/blog/views.py:19 | row `i` of a feed is row `i % 10` of page `i / 10 + 1`, so every row is reachable |
| Views.PageOfFeed | blogicum/blog/views.py:492 | a requested page is not found iff it does not exist; an existing page is exactly that page's slice of the feed |
| Views.PageOfFeedAt | blogicum/blog/views.py:492 | row `i` of a feed is served as row `i % 10` of page `i / 10 + 1` |
| Views.HomePage | blogicum/blog/views.py:34-42 | a page of the home feed exists iff its number is within the page count; it is exactly that slice of the home feed, at most 10 publicly visible posts, newest first |
| Views.HomePagesCover | blogicum/blog/views.py:34-42 | every publicly visible post is listed on some page of the home feed |
| Views.CategoryPage | blogicum/blog/views.py:143-164 | an unknown or unpublished category is not found whatever the page; for an open category a page exists iff its number is within the page count, and it is exactly that slice of the category feed: at most 10 publicly visible posts of that category |
| Views.ProfilePage | blogicum/blog/views.py:490-510 | an unknown username is not found; for a known one a page exists iff its number is within the page count, and it is exactly that slice of the profile feed: at most 10 posts of that user, only publicly visible ones for anyone but the owner |
| Views.OwnerPagesCover | blogicum/blog/views.py:504-510 | every post the owner wrote, unpublished, scheduled or uncategorised included, is on some page of the owner's own profile |
| Views.PostDetail | blogicum/blog/views.py:118-126 | as written: a missing id is not found; the author always gets the post; anyone else gets it iff it is publicly visible; a server error happens exactly when the requester is not the author and the category is null (or names no row); every other refusal is not found; the page lists exactly the post's comments, oldest first |
| Views.ListedPostsOpen | blogicum/blog/views.py:118-126 | every post on the home feed opens on the detail page for every requester, with as many comments as its row's count |
| Views.ScheduledPostAppears | blogicum/blog/views.py:28-31 | a published post in a published category is on the home feed exactly from its `pub_date` on, and its author can open it at any time |
| Views.NullCategoryCrashesDetail | blogicum/blog/views.py:123-126 | a non-author opening a post whose category is null gets a server error as written and a 404 as intended; the two versions agree on every request that is not a non-author's request for a post whose category is missing, and, in a valid database, on every request but the null-category one |
| Views.PostDetailIntended | blogicum/blog/views.py:118-126 | corrected: a post opens iff it exists and the requester is its author or it is publicly visible; otherwise not found, never a server error |
| Views.PostAuthorGate | blogicum/blog/views.py:252-256 | not found iff the post is missing; allowed iff the requester is its author; anyone else, anonymous included, is redirected to the post's page; the delete view repeats this check at lines 310-314 |
| Views.CommentAuthorGate | blogicum/blog/views.py:409-415 | allowed iff the comment exists, belongs to the post of the URL and the requester wrote it; not found otherwise, anonymous included; the delete view repeats this check at lines 434-440 |
| Views.ProfileToEdit | blogicum/blog/views.py:519-528 | an anonymous requester is sent to login; a signed-in one edits exactly their own record |
| Views.WithProfile | blogicum/blog/views.py:519-531 | saving the profile form changes the four form fields of the requester's account only, and keeps usernames unique |
| Views.ProfileEditKeepsNamesUnique | blogicum/blog/forms.py:23-28 | a profile edit the form accepts (`UserInputValid`: a username of 1 to 150 characters that no other account holds) keeps usernames unique |
| Views.ProfileEditRedirectAsWritten | blogicum/blog/views.py:530-531 | as written: the redirect names the username the account had before the edit, which differs from the saved one after a rename |
| Views.ProfileEditRedirect | blogicum/blog/views.py:530-531 | corrected: the redirect names the username just saved |
| Views.StaleProfileRedirect | blogicum/blog/views.py:530-531 | as written, a user who changes their username is redirected to a profile that is not found |
| Views.ProfileRedirectResolves | blogicum/blog/views.py:530-531 | corrected: the redirect names the username just saved, and that profile opens for its owner |
| Models.NewLocation | blogicum/blog/models.py:11-26 | a new location is published and stamped with its creation time |
| Models.NewCategory | blogicum/blog/models.py:37-59 | a new category is published and stamped with its creation time |
| Models.BlankPost | blogicum/blog/models.py:70-112 | a new post starts published, with no picture, no category and no location |
| Models.OneCategoryPerSlug | blogicum/blog/models.py:45-50 | in a database whose slugs are unique (part of `Valid`), a slug names at most one category |
| Models.OneUserPerName | blogicum/blog/views.py:499 | in a database whose usernames are unique (part of `Valid`), the username lookup matches at most one account |
| Models.CommentsOf | blogicum/blog/models.py:142-145 | a post's comments are listed exactly once each, only its own, oldest `created_at` first |
| Models.WithoutComment | blogicum/blog/models.py:123-140 | deleting a comment removes that comment only and keeps the database valid |
| Models.WithoutPost | blogicum/blog/models.py:127-132 | deleting a post removes it and exactly the comments on it; every other row is unchanged and the database stays valid |
| Models.WithoutUser | blogicum/blog/models.py:84-89 | deleting a user removes the user, exactly the posts they wrote, and exactly the comments they wrote or that hang on those posts; the rest is unchanged |
| Models.UserDeletionLeavesNoTrace | blogicum/blog/models.py:137-140 | after a user is deleted no post or comment has them as author, every comment's post exists, and the database is valid |
| Models.WithoutCategory | blogicum/blog/models.py:97-103 | deleting a category keeps every post, sets `category` to null on its posts and leaves every other post field unchanged |
| Models.WithoutLocation | blogicum/blog/models.py:90-96 | deleting a location keeps every post, sets `location` to null on its posts and leaves them otherwise unchanged |
| Ordering.TopExists | blogicum/blog/views.py:31 | every non-empty set of posts has one with the latest `pub_date` |
| Ordering.SortedDesc | blogicum/blog/views.py:31 | the sorted list holds every member of the set exactly once, highest rank first |
| Forms.ApplyPostForm | blogicum/blog/forms.py:9-20 | a post form sets every field but `author` and `created_at` and leaves those two as they were; no new picture keeps the old one |
| Forms.AcceptedPostFormKeepsRefs | blogicum/blog/models.py:73-103 | a post form is accepted (`PostInputValid`) only with a title of at most 256 characters, a text, and an existing category and location, since both keys are nullable but not blank; the post it yields keeps the database's links valid |
| Forms.NewPostFromForm | blogicum/blog/forms.py:9-20 | a created post takes its author from the server, not the form, and every other field from the form or the model defaults |
| Forms.ApplyCommentForm | blogicum/blog/forms.py:39-44 | editing a comment changes its `text` only; post, author and `created_at` are kept |
| Forms.AcceptedCommentFormKeepsRefs | blogicum/blog/models.py:126 | a comment form is accepted (`CommentInputValid`) only with a non-empty text, and editing keeps the comment's links valid |
| Forms.NewComment | blogicum/blog/views.py:341-345 | a new comment has the requester as author and the post of the URL |
| Forms.ApplyUserForm | blogicum/blog/forms.py:23-28 | the profile form changes `username`, `first_name`, `last_name` and `email` and keeps the password |
| Forms.UserFromRegistration | blogicum/blog/forms.py:31-36 | registration sets `username`, `email` and the password, and leaves the other fields blank |
| Forms.AcceptedRegistrationKeepsNamesUnique | blogicum/blog/forms.py:31-36 | a registration is accepted (`RegistrationValid`) only with a free username of 1 to 150 characters and two equal, non-empty passwords; the new account keeps usernames unique |
| Site.Blog.constructor | blogicum/blog/models.py:11-148 | an empty database is valid |
| Site.Blog.CreatePost | blogicum/blog/views.py:172-188 | anonymous: redirect to the index, nothing saved; invalid form: nothing saved; valid: exactly one new post, authored by the requester, and a redirect to the requester's profile |
| Site.Blog.AddComment | blogicum/blog/views.py:336-355 | anonymous: redirect to login; invalid form: nothing saved; missing post: not found, nothing saved; otherwise exactly one new comment by the requester on that post and a redirect to the post |
| Site.Blog.EditPost | blogicum/blog/views.py:246-259 | the author check's refusal is returned with the database unchanged; a valid form changes that post's form fields only, keeps its author, and redirects to the post |
| Site.Blog.DeletePost | blogicum/blog/views.py:305-317 | the author check's refusal is returned with the database unchanged; otherwise the post and its comments are deleted and the requester is sent to the index |
| Site.Blog.EditComment | blogicum/blog/views.py:404-418 | not found with the database unchanged unless the requester owns the comment on that post; a valid form changes its text only and redirects to the post |
| Site.Blog.DeleteComment | blogicum/blog/views.py:429-451 | not found with the database unchanged unless the requester owns the comment on that post; otherwise that comment alone is deleted |
| Site.Blog.EditProfile | blogicum/blog/views.py:519-538 | anonymous: redirect to login; invalid form: nothing saved; valid: only the requester's account changes, in the form's fields, and the redirect names the new username |
| Site.Blog.Register | blogicum/blog/views.py:541-548 | an invalid form saves nothing; a valid one adds exactly one account built from the form and redirects to the index |
| Site.Blog.AddCategory | blogicum/blog/models.py:45-55 | a taken slug is refused with nothing saved; otherwise one published category is added and slugs stay unique |
| Site.Blog.AddLocation | blogicum/blog/models.py:18-22 | one published location is added |
| Site.Blog.RemoveUser | blogicum/blog/models.py:84-89 | the database becomes the user-deletion result and stays valid |
| Site.Blog.RemoveCategory | blogicum/blog/models.py:97-103 | the database becomes the category-deletion result and stays valid |
| Site.Blog.RemoveLocation | blogicum/blog/models.py:90-96 | the database becomes the location-deletion result and stays valid |

## Left out

- Email: the welcome mail of registration and the password-reset mail (blogicum/blog/views.py:547-578) are I/O; the reset tokens belong to the framework's `PasswordResetView`, which is not part of this model.
- Templates and `get_context_data`: what the pages render (the comment form, the category, the profile record) is presentation.
- GET requests of the form views: showing an empty or pre-filled form, or the delete confirmation page, changes nothing; the methods model the submitting POST.
- The error pages in blogicum/pages/views.py and the URL routing in both `urls.py` files.
- Image upload and media storage: `image` is a stored path string; a form either brings a new one or keeps the old.
- The admin and app configuration files.
- The commented-out views in blogicum/blog/views.py are dead code.
- Clock and time zones: `now` is a parameter and instants are natural numbers.
- Paging edge cases of the framework: the page number is a natural number; the `last` keyword and non-numeric page strings are not modelled.
- Sessions and authentication: the requester arrives as a `Viewer`; logging in and out is not modelled.
- The framework's password hashing and validators: the password is stored as given, and the only checks are that it is non-empty and typed twice alike.
- Field validation details: whitespace stripping, the slug and e-mail formats, and the username character set are not modelled; lengths are checked only for `title` and `username`.
- Django's user model holds more fields than these five; only the fields the forms touch are kept.
- Primary keys: one counter hands out ids for all tables; the database uses one per table. Ids are only compared, so nothing depends on this.
- Ties between equal `pub_date`s or `created_at`s: the order among them is left unspecified, as the database leaves it.
- A category id that names no row, which the database invariant rules out, is treated by the detail page like a null category.
- Site.Blog.EditProfile: uses the corrected redirect (the username just saved); the as-written redirect is `Views.ProfileEditRedirectAsWritten`.

## Findings

| source | as written | input that shows it | evidently intended | confidence | as-written member | corrected member |
|---|---|---|---|---|---|---|
| blogicum/blog/views.py:123-126 | for a requester other than the author, the view reads `post.category.is_published`; a null category raises an uncaught error | a post whose category was deleted (set to null), opened by anyone but its author | a 404, as for any other post the requester may not see | high; not executed | Views.NullCategoryCrashesDetail | Views.PostDetailIntended |
| blogicum/blog/views.py:530-531 | after a profile edit the redirect uses the username of the session's user object, which is not the copy the form saved | a signed-in user renames themselves from `alice` to `alicia`; they are sent to `/profile/alice/`, which is not found | the profile under the new username | high; not executed | Views.StaleProfileRedirect | Views.ProfileRedirectResolves |
