/** The visibility and permission policy of the views: which posts each feed
    lists, how feeds are paged, what the detail page shows to whom, and the
    checks the edit and delete views make before they change anything. */
module Views {
  import opened Models
  import opened Forms
  import Ordering

  /** Posts per page of every listing. */
  const PAGES: nat := 10

  /** Who sends a request: a user id, or None for an anonymous visitor. The
      framework's anonymous user compares unequal to every user, so None is the
      author of nothing. */
  type Viewer = Option<Id>

  /** How a request ends. `Ok` carries what the page shows (for a form view:
      that the view goes on to render or save the form); `Invalid` is a form
      re-rendered with its errors; `ServerError` an exception the view does
      not catch. */
  datatype Response<T> =
    | Ok(value: T)
    | NotFound
    | ServerError
    | Invalid
    | RedirectToDetail(post: Id)
    | RedirectToIndex
    | RedirectToLogin
    | RedirectToProfile(username: string)

  /** One row of a listing: a post with its `comment_count` annotation. */
  datatype Listing = Listing(post: Id, commentCount: nat)

  /** The detail page: the post and its comments in display order. */
  datatype Detail = Detail(post: Id, comments: seq<Id>)

  // ---------------------------------------------------------------------
  // Filters

  /** The filter every feed of the mixin starts from. */
  predicate MixinFilter(p: Post, now: Time) {
    p.isPublished && p.pubDate <= now
  }

  /** `category__is_published=True`: false for a post without a category. */
  predicate CategoryPublished(s: Store, p: Post) {
    p.category.Some? && p.category.value in s.categories && s.categories[p.category.value].isPublished
  }

  /** A post anyone may see: published, in a published category, and its
      publication time reached. */
  predicate PubliclyVisible(s: Store, p: Post, now: Time) {
    p.isPublished && CategoryPublished(s, p) && p.pubDate <= now
  }

  /** The `comment_count` annotation. */
  function CommentCount(s: Store, pid: Id): nat {
    |CommentsOn(s, pid)|
  }

  /** The posts the mixin's query keeps. */
  function MixinQuery(s: Store, now: Time): (r: set<Id>)
    ensures forall id :: id in r <==> id in s.posts && MixinFilter(s.posts[id], now)
  {
    set id | id in s.posts && MixinFilter(s.posts[id], now)
  }

  // ---------------------------------------------------------------------
  // Listings

  /** `id` is one of the rows of `r`. */
  ghost predicate Shows(r: seq<Listing>, id: Id) {
    exists i :: 0 <= i < |r| && r[i].post == id
  }

  /** What every listing looks like: rows for existing posts, each post once,
      newest `pub_date` first, each with its number of comments. */
  ghost predicate FeedShape(s: Store, r: seq<Listing>) {
    && (forall i :: 0 <= i < |r| ==> r[i].post in s.posts && r[i].commentCount == CommentCount(s, r[i].post))
    && (forall i, j :: 0 <= i < j < |r| ==> r[i].post != r[j].post)
    && (forall i, j :: 0 <= i < j < |r| ==> s.posts[r[i].post].pubDate >= s.posts[r[j].post].pubDate)
  }

  /** Each post of `order` with its comment count, in the same order. */
  function Annotate(s: Store, order: seq<Id>): (r: seq<Listing>)
    ensures |r| == |order|
    ensures forall i :: 0 <= i < |r| ==> r[i].post == order[i] && r[i].commentCount == CommentCount(s, order[i])
  {
    seq(|order|, i requires 0 <= i < |order| => Listing(order[i], CommentCount(s, order[i])))
  }

  /** The rows of a query result, ordered by `-pub_date` and annotated. */
  ghost function Listed(s: Store, ids: set<Id>): (r: seq<Listing>)
    requires ids <= s.posts.Keys
    ensures FeedShape(s, r)
    ensures forall id :: Shows(r, id) <==> id in ids
  {
    var order := Ordering.SortedDesc(ids, id => if id in s.posts then s.posts[id].pubDate else 0);
    var r := Annotate(s, order);
    assert forall id :: id in ids ==> Shows(r, id) by {
      forall id | id in ids ensures Shows(r, id) {
        var k :| 0 <= k < |order| && order[k] == id;
        assert r[k].post == id;
      }
    }
    r
  }

  /** The home feed: the mixin's query narrowed to published categories. */
  ghost function HomeFeed(s: Store, now: Time): (r: seq<Listing>)
    ensures FeedShape(s, r)
    ensures forall id :: Shows(r, id) <==> id in s.posts && PubliclyVisible(s, s.posts[id], now)
  {
    Listed(s, set id | id in MixinQuery(s, now) && CategoryPublished(s, s.posts[id]))
  }

  /** The slug names a published category. */
  ghost predicate CategoryOpen(s: Store, slug: string) {
    exists c :: c in s.categories && s.categories[c].slug == slug && s.categories[c].isPublished
  }

  /** The published category with that slug, looked up with 404 on a miss. */
  ghost function OpenCategoryBySlug(s: Store, slug: string): (r: Option<Id>)
    ensures r.Some? <==> CategoryOpen(s, slug)
    ensures r.Some? ==> r.value in s.categories && s.categories[r.value].slug == slug && s.categories[r.value].isPublished
  {
    if CategoryOpen(s, slug) then
      var c :| c in s.categories && s.categories[c].slug == slug && s.categories[c].isPublished;
      Some(c)
    else None
  }

  /** The post's category exists and has that slug. */
  predicate InCategory(s: Store, p: Post, slug: string) {
    p.category.Some? && p.category.value in s.categories && s.categories[p.category.value].slug == slug
  }

  /** The category feed: not found unless the slug names a published
      category; otherwise the mixin's query narrowed to that category. */
  ghost function CategoryFeed(s: Store, slug: string, now: Time): (r: Response<seq<Listing>>)
    requires UniqueSlugs(s)
    ensures r.Ok? || r.NotFound?
    ensures r.NotFound? <==> !CategoryOpen(s, slug)
    ensures r.Ok? ==> FeedShape(s, r.value)
    ensures r.Ok? ==> forall id :: Shows(r.value, id) <==>
      id in s.posts && s.posts[id].isPublished && s.posts[id].pubDate <= now && InCategory(s, s.posts[id], slug)
  {
    match OpenCategoryBySlug(s, slug)
    case None => NotFound
    case Some(cid) =>
      var ids := set id | id in MixinQuery(s, now) && s.posts[id].category == Some(cid);
      assert forall id :: id in ids <==>
        id in s.posts && s.posts[id].isPublished && s.posts[id].pubDate <= now && InCategory(s, s.posts[id], slug) by {
        forall id | id in s.posts && InCategory(s, s.posts[id], slug)
          ensures s.posts[id].category == Some(cid)
        {
          var c := s.posts[id].category.value;
          assert c in s.categories && cid in s.categories && s.categories[c].slug == s.categories[cid].slug;
          assert c == cid;
        }
      }
      Ok(Listed(s, ids))
  }

  /** The category feed never adds a filter on the category's flag, yet
      everything it lists is publicly visible: the lookup already demanded a
      published category and slugs are unique. */
  lemma CategoryFeedIsPublic(s: Store, slug: string, now: Time, id: Id)
    requires UniqueSlugs(s)
    requires CategoryFeed(s, slug, now).Ok? && Shows(CategoryFeed(s, slug, now).value, id)
    ensures id in s.posts && PubliclyVisible(s, s.posts[id], now)
  {
  }

  ghost predicate NameTaken(s: Store, name: string) {
    exists u :: u in s.users && s.users[u].username == name
  }

  /** The user with that username, looked up with 404 on a miss. */
  ghost function UserByName(s: Store, name: string): (r: Option<Id>)
    ensures r.Some? <==> NameTaken(s, name)
    ensures r.Some? ==> r.value in s.users && s.users[r.value].username == name
  {
    if NameTaken(s, name) then
      var u :| u in s.users && s.users[u].username == name;
      Some(u)
    else None
  }

  /** The post's author exists and has that username. */
  predicate WrittenBy(s: Store, p: Post, name: string) {
    p.author in s.users && s.users[p.author].username == name
  }

  /** The viewer is signed in as the user with that username. */
  predicate ViewerNamed(s: Store, viewer: Viewer, name: string) {
    viewer.Some? && viewer.value in s.users && s.users[viewer.value].username == name
  }

  /** With unique usernames, being signed in under a username and being the
      user found by that username are the same. */
  lemma OwnerByName(s: Store, viewer: Viewer, name: string, uid: Id)
    requires UniqueUsernames(s) && uid in s.users && s.users[uid].username == name
    ensures ViewerNamed(s, viewer, name) <==> viewer == Some(uid)
  {
    if ViewerNamed(s, viewer, name) {
      var v := viewer.value;
      assert s.users[v].username == s.users[uid].username;
    }
  }

  /** The profile feed: not found for an unknown username; the owner sees
      every post they wrote, anyone else only the publicly visible ones. */
  ghost function ProfileFeed(s: Store, viewer: Viewer, name: string, now: Time): (r: Response<seq<Listing>>)
    requires UniqueUsernames(s)
    ensures r.Ok? || r.NotFound?
    ensures r.NotFound? <==> !NameTaken(s, name)
    ensures r.Ok? ==> FeedShape(s, r.value)
    ensures r.Ok? && ViewerNamed(s, viewer, name) ==>
      forall id :: Shows(r.value, id) <==> id in s.posts && WrittenBy(s, s.posts[id], name)
    ensures r.Ok? && !ViewerNamed(s, viewer, name) ==>
      forall id :: Shows(r.value, id) <==> id in s.posts && WrittenBy(s, s.posts[id], name) && PubliclyVisible(s, s.posts[id], now)
  {
    match UserByName(s, name)
    case None => NotFound
    case Some(uid) =>
      OwnerByName(s, viewer, name, uid);
      if viewer != Some(uid) then
        Ok(Listed(s, set id | id in MixinQuery(s, now) && s.posts[id].author == uid && CategoryPublished(s, s.posts[id])))
      else
        Ok(Listed(s, set id | id in s.posts && s.posts[id].author == uid))
  }

  // ---------------------------------------------------------------------
  // Paging

  /** Number of pages of `n` rows; an empty listing still has its first page. */
  function PageCount(n: nat): nat {
    if n == 0 then 1 else (n + PAGES - 1) / PAGES
  }

  /** Page `number` (counting from 1) of `items`, None past the last page. */
  function Page<T>(items: seq<T>, number: nat): (r: Option<seq<T>>)
    ensures r.Some? <==> 1 <= number <= PageCount(|items|)
    ensures r.Some? ==> |r.value| <= PAGES
    ensures r.Some? ==> forall k :: 0 <= k < |r.value| ==>
      (number - 1) * PAGES + k < |items| && r.value[k] == items[(number - 1) * PAGES + k]
    ensures r.Some? && number < PageCount(|items|) ==> |r.value| == PAGES
  {
    if 1 <= number <= PageCount(|items|) then
      var lo := (number - 1) * PAGES;
      var hi := if lo + PAGES < |items| then lo + PAGES else |items|;
      Some(items[lo..hi])
    else None
  }

  /** Every row of a listing is on exactly one page: row `i` is entry
      `i % PAGES` of page `i / PAGES + 1`. */
  lemma PageAt<T>(items: seq<T>, i: nat)
    requires i < |items|
    ensures Page(items, i / PAGES + 1).Some?
    ensures i % PAGES < |Page(items, i / PAGES + 1).value|
    ensures Page(items, i / PAGES + 1).value[i % PAGES] == items[i]
  {
  }

  /** A requested page of a listing, 404 when the page does not exist. */
  ghost function PageOfFeed(s: Store, feed: seq<Listing>, number: nat): (r: Response<seq<Listing>>)
    requires FeedShape(s, feed)
    ensures r.Ok? || r.NotFound?
    ensures r.NotFound? <==> !(1 <= number <= PageCount(|feed|))
    ensures r.Ok? ==> |r.value| <= PAGES && FeedShape(s, r.value)
    ensures r.Ok? ==> forall k :: 0 <= k < |r.value| ==> Shows(feed, r.value[k].post)
    ensures r.Ok? ==> Some(r.value) == Page(feed, number)
  {
    match Page(feed, number)
    case None => NotFound
    case Some(p) =>
      assert forall k :: 0 <= k < |p| ==> p[k] == feed[(number - 1) * PAGES + k];
      Ok(p)
  }

  /** The home page: at most `PAGES` publicly visible posts, newest first. */
  ghost function HomePage(s: Store, now: Time, number: nat): (r: Response<seq<Listing>>)
    ensures r.Ok? || r.NotFound?
    ensures r.NotFound? <==> !(1 <= number <= PageCount(|HomeFeed(s, now)|))
    ensures r.Ok? ==> |r.value| <= PAGES && FeedShape(s, r.value)
    ensures r.Ok? ==> forall k :: 0 <= k < |r.value| ==> PubliclyVisible(s, s.posts[r.value[k].post], now)
    ensures r.Ok? ==> Some(r.value) == Page(HomeFeed(s, now), number)
  {
    PageOfFeed(s, HomeFeed(s, now), number)
  }

  /** A page of the category feed; a missing or unpublished category is
      reported before the page number is looked at. */
  ghost function CategoryPage(s: Store, slug: string, now: Time, number: nat): (r: Response<seq<Listing>>)
    requires UniqueSlugs(s)
    ensures r.Ok? || r.NotFound?
    ensures !CategoryOpen(s, slug) ==> r.NotFound?
    ensures CategoryOpen(s, slug) ==> (r.Ok? <==> 1 <= number <= PageCount(|CategoryFeed(s, slug, now).value|))
    ensures r.Ok? ==> Some(r.value) == Page(CategoryFeed(s, slug, now).value, number)
    ensures r.Ok? ==> |r.value| <= PAGES && FeedShape(s, r.value)
    ensures r.Ok? ==> forall k :: 0 <= k < |r.value| ==>
      InCategory(s, s.posts[r.value[k].post], slug) && PubliclyVisible(s, s.posts[r.value[k].post], now)
  {
    match CategoryFeed(s, slug, now)
    case Ok(feed) =>
      var r := PageOfFeed(s, feed, number);
      assert r.Ok? ==> forall k :: 0 <= k < |r.value| ==> PubliclyVisible(s, s.posts[r.value[k].post], now) by {
        if r.Ok? {
          forall k | 0 <= k < |r.value| ensures PubliclyVisible(s, s.posts[r.value[k].post], now) {
            CategoryFeedIsPublic(s, slug, now, r.value[k].post);
          }
        }
      }
      r
    case _ => NotFound
  }

  /** A page of the profile feed. */
  ghost function ProfilePage(s: Store, viewer: Viewer, name: string, now: Time, number: nat): (r: Response<seq<Listing>>)
    requires UniqueUsernames(s)
    ensures r.Ok? || r.NotFound?
    ensures !NameTaken(s, name) ==> r.NotFound?
    ensures NameTaken(s, name) ==> (r.Ok? <==> 1 <= number <= PageCount(|ProfileFeed(s, viewer, name, now).value|))
    ensures r.Ok? ==> Some(r.value) == Page(ProfileFeed(s, viewer, name, now).value, number)
    ensures r.Ok? ==> |r.value| <= PAGES && FeedShape(s, r.value)
    ensures r.Ok? ==> forall k :: 0 <= k < |r.value| ==> WrittenBy(s, s.posts[r.value[k].post], name)
    ensures r.Ok? && !ViewerNamed(s, viewer, name) ==>
      forall k :: 0 <= k < |r.value| ==> PubliclyVisible(s, s.posts[r.value[k].post], now)
  {
    match ProfileFeed(s, viewer, name, now)
    case Ok(feed) => PageOfFeed(s, feed, number)
    case _ => NotFound
  }

  /** Row `i` of a listing is row `i % PAGES` of the page `i / PAGES + 1`
      the view serves. */
  lemma PageOfFeedAt(s: Store, feed: seq<Listing>, i: nat)
    requires FeedShape(s, feed) && i < |feed|
    ensures PageOfFeed(s, feed, i / PAGES + 1).Ok?
    ensures var page := PageOfFeed(s, feed, i / PAGES + 1).value;
      i % PAGES < |page| && page[i % PAGES] == feed[i] && Shows(page, feed[i].post)
  {
    PageAt(feed, i);
    var page := PageOfFeed(s, feed, i / PAGES + 1).value;
    assert page[i % PAGES] == feed[i];
  }

  /** Every publicly visible post is on some page of the home feed. */
  lemma HomePagesCover(s: Store, now: Time, pid: Id)
    requires pid in s.posts && PubliclyVisible(s, s.posts[pid], now)
    ensures exists number :: HomePage(s, now, number).Ok? && Shows(HomePage(s, now, number).value, pid)
  {
    var feed := HomeFeed(s, now);
    assert Shows(feed, pid);
    var i :| 0 <= i < |feed| && feed[i].post == pid;
    var number := i / PAGES + 1;
    PageOfFeedAt(s, feed, i);
    assert HomePage(s, now, number) == PageOfFeed(s, feed, number);
  }

  /** The owner's profile pages together hold every post they wrote,
      unpublished, scheduled or uncategorised ones included. */
  lemma OwnerPagesCover(s: Store, uid: Id, pid: Id, now: Time)
    requires UniqueUsernames(s) && uid in s.users && pid in s.posts && s.posts[pid].author == uid
    ensures var name := s.users[uid].username;
      exists number :: ProfilePage(s, Some(uid), name, now, number).Ok? && Shows(ProfilePage(s, Some(uid), name, now, number).value, pid)
  {
    var name := s.users[uid].username;
    assert NameTaken(s, name);
    assert ViewerNamed(s, Some(uid), name);
    var feed := ProfileFeed(s, Some(uid), name, now).value;
    assert Shows(feed, pid);
    var i :| 0 <= i < |feed| && feed[i].post == pid;
    var number := i / PAGES + 1;
    PageOfFeedAt(s, feed, i);
    assert ProfilePage(s, Some(uid), name, now, number) == PageOfFeed(s, feed, number);
  }

  // ---------------------------------------------------------------------
  // The detail page

  /** The post's category is null, or names no row. */
  predicate CategoryMissing(s: Store, p: Post) {
    p.category.None? || p.category.value !in s.categories
  }

  /** The detail page as written: the author always gets the post; anyone
      else needs it to be publicly visible, and reading the flag of a missing
      category is an uncaught error rather than a 404. */
  ghost function PostDetail(s: Store, viewer: Viewer, pid: Id, now: Time): (r: Response<Detail>)
    ensures r.Ok? || r.NotFound? || r.ServerError?
    ensures pid !in s.posts ==> r.NotFound?
    ensures pid in s.posts && viewer == Some(s.posts[pid].author) ==> r.Ok?
    ensures pid in s.posts && viewer != Some(s.posts[pid].author) ==>
      (r.Ok? <==> PubliclyVisible(s, s.posts[pid], now))
    ensures pid in s.posts && viewer != Some(s.posts[pid].author) && s.posts[pid].category.None? ==> r.ServerError?
    ensures r.ServerError? <==> pid in s.posts && viewer != Some(s.posts[pid].author) && CategoryMissing(s, s.posts[pid])
    ensures r.NotFound? ==> pid !in s.posts || s.posts[pid].category.Some?
    ensures r.Ok? ==> r.value.post == pid && r.value.comments == CommentsOf(s, pid)
  {
    if pid !in s.posts then NotFound
    else
      var p := s.posts[pid];
      if viewer != Some(p.author) then
        if CategoryMissing(s, p) then ServerError
        else if !(s.categories[p.category.value].isPublished && p.isPublished && p.pubDate <= now) then NotFound
        else Ok(Detail(pid, CommentsOf(s, pid)))
      else Ok(Detail(pid, CommentsOf(s, pid)))
  }

  /** Every post a home-feed row links to opens for every viewer, and its
      page lists as many comments as the row's count says. */
  lemma ListedPostsOpen(s: Store, now: Time, viewer: Viewer, i: nat)
    requires i < |HomeFeed(s, now)|
    ensures var row := HomeFeed(s, now)[i];
      && PostDetail(s, viewer, row.post, now).Ok?
      && |PostDetail(s, viewer, row.post, now).value.comments| == row.commentCount
  {
  }

  /** A scheduled post appears in the home feed once its time has come and
      stays there; its author can open it at any time. */
  lemma ScheduledPostAppears(s: Store, pid: Id, viewer: Viewer, now: Time)
    requires pid in s.posts && s.posts[pid].isPublished && CategoryPublished(s, s.posts[pid])
    ensures Shows(HomeFeed(s, now), pid) <==> s.posts[pid].pubDate <= now
    ensures PostDetail(s, Some(s.posts[pid].author), pid, now).Ok?
  {
  }

  /** The detail page with the missing-category case answered by a 404. */
  ghost function PostDetailIntended(s: Store, viewer: Viewer, pid: Id, now: Time): (r: Response<Detail>)
    ensures r.Ok? || r.NotFound?
    ensures r.Ok? <==> pid in s.posts && (viewer == Some(s.posts[pid].author) || PubliclyVisible(s, s.posts[pid], now))
    ensures r.Ok? ==> r.value.post == pid && r.value.comments == CommentsOf(s, pid)
  {
    if pid !in s.posts then NotFound
    else
      var p := s.posts[pid];
      if viewer != Some(p.author) && !PubliclyVisible(s, p, now) then NotFound
      else Ok(Detail(pid, CommentsOf(s, pid)))
  }

  /** A post whose category was deleted crashes the detail page for everyone
      but its author, where a 404 was meant; the two versions agree on every
      other request. */
  lemma NullCategoryCrashesDetail(s: Store, viewer: Viewer, pid: Id, now: Time)
    ensures pid in s.posts && viewer != Some(s.posts[pid].author) && s.posts[pid].category.None? ==>
      PostDetail(s, viewer, pid, now).ServerError? && PostDetailIntended(s, viewer, pid, now).NotFound?
    ensures !(pid in s.posts && viewer != Some(s.posts[pid].author) && CategoryMissing(s, s.posts[pid])) ==>
      PostDetail(s, viewer, pid, now) == PostDetailIntended(s, viewer, pid, now)
    ensures Valid(s) && !(pid in s.posts && viewer != Some(s.posts[pid].author) && s.posts[pid].category.None?) ==>
      PostDetail(s, viewer, pid, now) == PostDetailIntended(s, viewer, pid, now)
  {
  }

  // ---------------------------------------------------------------------
  // Permission checks of the edit and delete views

  /** Editing or deleting a post: 404 for a missing post; anyone but its
      author, an anonymous visitor included, is sent to the detail page. */
  function PostAuthorGate(s: Store, viewer: Viewer, pid: Id): (r: Response<()>)
    ensures r.NotFound? <==> pid !in s.posts
    ensures r.Ok? <==> pid in s.posts && viewer == Some(s.posts[pid].author)
    ensures pid in s.posts && viewer != Some(s.posts[pid].author) ==> r == RedirectToDetail(pid)
  {
    if pid !in s.posts then NotFound
    else if viewer != Some(s.posts[pid].author) then RedirectToDetail(pid)
    else Ok(())
  }

  /** Editing or deleting a comment: 404 unless the comment exists, hangs on
      the post of the URL and the viewer wrote it. */
  function CommentAuthorGate(s: Store, viewer: Viewer, pid: Id, cid: Id): (r: Response<()>)
    ensures r.Ok? || r.NotFound?
    ensures r.Ok? <==> cid in s.comments && s.comments[cid].post == pid && viewer == Some(s.comments[cid].author)
  {
    if !(cid in s.comments && s.comments[cid].post == pid) then NotFound
    else if viewer != Some(s.comments[cid].author) then NotFound
    else Ok(())
  }

  /** The record the profile form edits: sign-in is required, and the lookup
      by the requester's own username finds the requester and nobody else. */
  ghost function ProfileToEdit(s: Store, viewer: Viewer): (r: Response<Id>)
    requires UniqueUsernames(s)
    requires viewer.Some? ==> viewer.value in s.users
    ensures viewer.None? ==> r == RedirectToLogin
    ensures viewer.Some? ==> r == Ok(viewer.value)
  {
    if viewer.None? then RedirectToLogin
    else
      var me := viewer.value;
      var name := s.users[me].username;
      assert me in s.users && s.users[me].username == name;
      assert NameTaken(s, name);
      match UserByName(s, name)
      case Some(uid) =>
        OwnerByName(s, viewer, name, uid);
        Ok(uid)
      case None => NotFound
  }

  // ---------------------------------------------------------------------
  // Where a successful profile edit goes

  /** The store after the profile form of `uid` is saved: the form's fields
      of that one account change, and nothing else in the database. */
  function WithProfile(s: Store, uid: Id, f: UserInput): (r: Store)
    requires uid in s.users
    ensures r.users.Keys == s.users.Keys
    ensures forall u :: u in s.users && u != uid ==> r.users[u] == s.users[u]
    ensures forall fld :: fld !in UserFormFields ==> UserValue(r.users[uid], fld) == UserValue(s.users[uid], fld)
    ensures r.users[uid].username == f.username && r.users[uid].email == f.email
    ensures r.users[uid].firstName == f.firstName && r.users[uid].lastName == f.lastName
    ensures r.locations == s.locations && r.categories == s.categories && r.posts == s.posts && r.comments == s.comments
    ensures UniqueUsernames(s) && UserInputValid(s, uid, f) ==> UniqueUsernames(r)
  {
    ProfileEditKeepsNamesUnique(s, uid, f);
    s.(users := s.users[uid := ApplyUserForm(s.users[uid], f)])
  }

  /** As written: the target is the username of the session's user object,
      which saving the form (a separately fetched copy) leaves as it was. */
  function ProfileEditRedirectAsWritten(before: User, after: User): (r: Response<()>)
    ensures r.RedirectToProfile? && r.username == before.username
    ensures after.username != before.username ==> r != RedirectToProfile(after.username)
  {
    RedirectToProfile(before.username)
  }

  /** Intended: the profile under the username just saved. */
  function ProfileEditRedirect(before: User, after: User): (r: Response<()>)
    ensures r.RedirectToProfile? && r.username == after.username
  {
    RedirectToProfile(after.username)
  }

  /** Saving the profile keeps usernames unique. */
  lemma ProfileEditKeepsNamesUnique(s: Store, uid: Id, f: UserInput)
    requires uid in s.users
    ensures UniqueUsernames(s) && UserInputValid(s, uid, f) ==>
      UniqueUsernames(s.(users := s.users[uid := ApplyUserForm(s.users[uid], f)]))
  {
  }

  /** A user who changes their username is redirected, as written, to a
      profile that no longer exists. */
  lemma StaleProfileRedirect(s: Store, uid: Id, f: UserInput, now: Time)
    requires UniqueUsernames(s) && uid in s.users && UserInputValid(s, uid, f)
    requires f.username != s.users[uid].username
    ensures UniqueUsernames(WithProfile(s, uid, f))
    ensures var target := ProfileEditRedirectAsWritten(s.users[uid], WithProfile(s, uid, f).users[uid]);
      ProfileFeed(WithProfile(s, uid, f), Some(uid), target.username, now).NotFound?
  {
  }

  /** The intended target is the profile just saved, and it opens for its
      owner with every post they wrote. */
  lemma ProfileRedirectResolves(s: Store, uid: Id, f: UserInput, now: Time)
    requires UniqueUsernames(s) && uid in s.users && UserInputValid(s, uid, f)
    ensures UniqueUsernames(WithProfile(s, uid, f))
    ensures var target := ProfileEditRedirect(s.users[uid], WithProfile(s, uid, f).users[uid]);
      && target.username == f.username
      && ProfileFeed(WithProfile(s, uid, f), Some(uid), target.username, now).Ok?
  {
  }
}
