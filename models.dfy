/** The records of the blog application (users, locations, categories, posts
    and comments), the database that holds them, and what deleting a row does
    to the rows that refer to it. */
module Models {
  import Ordering

  /** Primary keys. */
  type Id = int

  /** Instants, coarsened to a number; a later instant is a larger number. */
  type Time = nat

  datatype Option<T> = None | Some(value: T)

  /** The framework's user record, reduced to the fields the forms touch. */
  datatype User = User(username: string, firstName: string, lastName: string, email: string, password: string)

  datatype Location = Location(name: string, isPublished: bool, createdAt: Time)

  datatype Category = Category(title: string, description: string, slug: string, isPublished: bool, createdAt: Time)

  /** `image` is the stored path of the uploaded picture, "" when there is none. */
  datatype Post = Post(
    title: string,
    text: string,
    image: string,
    pubDate: Time,
    author: Id,
    location: Option<Id>,
    category: Option<Id>,
    isPublished: bool,
    createdAt: Time)

  datatype Comment = Comment(text: string, post: Id, createdAt: Time, author: Id)

  /** One table per record kind, keyed by primary key. */
  datatype Store = Store(
    users: map<Id, User>,
    locations: map<Id, Location>,
    categories: map<Id, Category>,
    posts: map<Id, Post>,
    comments: map<Id, Comment>)

  /** A field read as a value, so that forms and deletions can say which
      fields they keep and which they change. */
  datatype Value = Str(str: string) | Instant(time: Time) | Flag(flag: bool) | Ref(ref: Option<Id>) | Key(key: Id)

  datatype PostField =
    PostTitle | PostText | PostImage | PostPubDate | PostAuthor | PostLocation | PostCategory | PostIsPublished | PostCreatedAt

  function PostValue(p: Post, f: PostField): Value {
    match f
    case PostTitle => Str(p.title)
    case PostText => Str(p.text)
    case PostImage => Str(p.image)
    case PostPubDate => Instant(p.pubDate)
    case PostAuthor => Key(p.author)
    case PostLocation => Ref(p.location)
    case PostCategory => Ref(p.category)
    case PostIsPublished => Flag(p.isPublished)
    case PostCreatedAt => Instant(p.createdAt)
  }

  /** `created_at` is filled in once on insert (`auto_now_add`), which makes it
      non-editable; every other post field may appear on a form. */
  const EditablePostFields: set<PostField> :=
    {PostTitle, PostText, PostImage, PostPubDate, PostAuthor, PostLocation, PostCategory, PostIsPublished}

  datatype CommentField = CommentText | CommentPost | CommentCreatedAt | CommentAuthor

  function CommentValue(c: Comment, f: CommentField): Value {
    match f
    case CommentText => Str(c.text)
    case CommentPost => Key(c.post)
    case CommentCreatedAt => Instant(c.createdAt)
    case CommentAuthor => Key(c.author)
  }

  datatype UserField = Username | FirstName | LastName | Email | Password

  function UserValue(u: User, f: UserField): Value {
    match f
    case Username => Str(u.username)
    case FirstName => Str(u.firstName)
    case LastName => Str(u.lastName)
    case Email => Str(u.email)
    case Password => Str(u.password)
  }

  // ---------------------------------------------------------------------
  // Defaults of newly created rows

  /** A location as first saved: published by default, stamped with `now`. */
  function NewLocation(name: string, now: Time): (r: Location)
    ensures r.isPublished
    ensures r.name == name && r.createdAt == now
  {
    Location(name, true, now)
  }

  /** A category as first saved: published by default, stamped with `now`. */
  function NewCategory(title: string, description: string, slug: string, now: Time): (r: Category)
    ensures r.isPublished
    ensures r.title == title && r.description == description && r.slug == slug && r.createdAt == now
  {
    Category(title, description, slug, true, now)
  }

  /** The unsaved post a creation form starts from: every field at its model
      default (published, no picture, no category, no location) before the
      submitted fields are copied onto it. `pub_date` has no default; 0 stands
      in until the form sets it. */
  function BlankPost(author: Id, now: Time): (r: Post)
    ensures r.isPublished && r.image == ""
    ensures r.category.None? && r.location.None?
    ensures r.author == author && r.createdAt == now
  {
    Post("", "", "", 0, author, None, None, true, now)
  }

  // ---------------------------------------------------------------------
  // Integrity of the database

  /** The foreign keys of a post point at existing rows (the nullable ones
      when they are set). */
  predicate PostRefsOk(s: Store, p: Post) {
    && p.author in s.users
    && (p.location.Some? ==> p.location.value in s.locations)
    && (p.category.Some? ==> p.category.value in s.categories)
  }

  predicate CommentRefsOk(s: Store, c: Comment) {
    c.post in s.posts && c.author in s.users
  }

  /** `slug` is declared unique. */
  predicate UniqueSlugs(s: Store) {
    forall a, b :: a in s.categories && b in s.categories && s.categories[a].slug == s.categories[b].slug ==> a == b
  }

  /** The framework's user table declares `username` unique. */
  predicate UniqueUsernames(s: Store) {
    forall a, b :: a in s.users && b in s.users && s.users[a].username == s.users[b].username ==> a == b
  }

  /** With unique slugs a slug names at most one category. */
  lemma {:induction false} OneCategoryPerSlug(s: Store, slug: string)
    requires UniqueSlugs(s)
    ensures |set c | c in s.categories && s.categories[c].slug == slug| <= 1
  {
    var named := set c | c in s.categories && s.categories[c].slug == slug;
    if named != {} {
      if forall y :: y !in named { assert false; }
      var a :| a in named;
      forall b | b in named ensures b == a {
        assert s.categories[a].slug == s.categories[b].slug;
      }
      assert named == {a};
    }
  }

  /** With unique usernames a username names at most one account. */
  lemma {:induction false} OneUserPerName(s: Store, name: string)
    requires UniqueUsernames(s)
    ensures |set u | u in s.users && s.users[u].username == name| <= 1
  {
    var named := set u | u in s.users && s.users[u].username == name;
    if named != {} {
      if forall y :: y !in named { assert false; }
      var a :| a in named;
      forall b | b in named ensures b == a {
        assert s.users[a].username == s.users[b].username;
      }
      assert named == {a};
    }
  }

  /** What the database guarantees of every state it is in. */
  predicate Valid(s: Store) {
    && (forall p :: p in s.posts ==> PostRefsOk(s, s.posts[p]))
    && (forall c :: c in s.comments ==> CommentRefsOk(s, s.comments[c]))
    && UniqueSlugs(s)
    && UniqueUsernames(s)
  }

  // ---------------------------------------------------------------------
  // Comments of a post

  /** The comments whose `post` is `pid`. */
  function CommentsOn(s: Store, pid: Id): set<Id> {
    set c | c in s.comments && s.comments[c].post == pid
  }

  /** A post's comments as the model's default ordering lists them: exactly
      the comments on that post, each once, oldest `created_at` first. */
  ghost function CommentsOf(s: Store, pid: Id): (r: seq<Id>)
    ensures |r| == |CommentsOn(s, pid)|
    ensures forall i :: 0 <= i < |r| ==> r[i] in s.comments && s.comments[r[i]].post == pid
    ensures forall c :: c in s.comments && s.comments[c].post == pid ==> c in r
    ensures forall i, j :: 0 <= i < j < |r| ==> r[i] != r[j]
    ensures forall i, j :: 0 <= i < j < |r| ==> s.comments[r[i]].createdAt <= s.comments[r[j]].createdAt
  {
    Ordering.SortedDesc(CommentsOn(s, pid), c => if c in s.comments then 0 - s.comments[c].createdAt as int else 0)
  }

  // ---------------------------------------------------------------------
  // Deletions and what they cascade to

  /** Deleting one comment; nothing refers to comments. */
  function WithoutComment(s: Store, cid: Id): (r: Store)
    ensures r.comments.Keys == s.comments.Keys - {cid}
    ensures forall c :: c in r.comments ==> r.comments[c] == s.comments[c]
    ensures r.users == s.users && r.locations == s.locations && r.categories == s.categories && r.posts == s.posts
    ensures Valid(s) ==> Valid(r)
  {
    s.(comments := s.comments - {cid})
  }

  /** Deleting a post also deletes its comments (`Comment.post` cascades). */
  function WithoutPost(s: Store, pid: Id): (r: Store)
    ensures r.posts.Keys == s.posts.Keys - {pid}
    ensures forall p :: p in r.posts ==> r.posts[p] == s.posts[p]
    ensures forall c :: c in r.comments <==> c in s.comments && s.comments[c].post != pid
    ensures forall c :: c in r.comments ==> r.comments[c] == s.comments[c]
    ensures r.users == s.users && r.locations == s.locations && r.categories == s.categories
    ensures Valid(s) ==> Valid(r)
  {
    s.(posts := s.posts - {pid},
       comments := map c | c in s.comments && s.comments[c].post != pid :: s.comments[c])
  }

  /** The comments that deleting user `uid` removes: those `uid` wrote
      (`Comment.author` cascades) and those on the posts `uid` wrote
      (`Post.author` cascades to the post, the post to its comments). */
  predicate DoomedWithUser(s: Store, uid: Id, c: Comment) {
    c.author == uid || (c.post in s.posts && s.posts[c.post].author == uid)
  }

  /** Deleting a user and everything that cascades from it. */
  function WithoutUser(s: Store, uid: Id): (r: Store)
    ensures r.users.Keys == s.users.Keys - {uid}
    ensures forall u :: u in r.users ==> r.users[u] == s.users[u]
    ensures forall p :: p in r.posts <==> p in s.posts && s.posts[p].author != uid
    ensures forall p :: p in r.posts ==> r.posts[p] == s.posts[p]
    ensures forall c :: c in r.comments <==> c in s.comments && !DoomedWithUser(s, uid, s.comments[c])
    ensures forall c :: c in r.comments ==> r.comments[c] == s.comments[c]
    ensures r.locations == s.locations && r.categories == s.categories
    ensures Valid(s) ==> Valid(r)
  {
    s.(users := s.users - {uid},
       posts := map p | p in s.posts && s.posts[p].author != uid :: s.posts[p],
       comments := map c | c in s.comments && !DoomedWithUser(s, uid, s.comments[c]) :: s.comments[c])
  }

  /** A post after the category it refers to is deleted (`SET_NULL`). */
  function DetachCategory(p: Post, cid: Id): Post {
    if p.category == Some(cid) then p.(category := None) else p
  }

  /** Deleting a category: its posts stay, with `category` set to null and
      every other field as it was. */
  function WithoutCategory(s: Store, cid: Id): (r: Store)
    ensures r.categories.Keys == s.categories.Keys - {cid}
    ensures forall k :: k in r.categories ==> r.categories[k] == s.categories[k]
    ensures r.posts.Keys == s.posts.Keys
    ensures forall p :: p in s.posts && s.posts[p].category == Some(cid) ==> r.posts[p].category.None?
    ensures forall p :: p in s.posts && s.posts[p].category != Some(cid) ==> r.posts[p] == s.posts[p]
    ensures forall p, f :: p in s.posts && f != PostCategory ==> PostValue(r.posts[p], f) == PostValue(s.posts[p], f)
    ensures r.users == s.users && r.locations == s.locations && r.comments == s.comments
    ensures Valid(s) ==> Valid(r)
  {
    s.(categories := s.categories - {cid},
       posts := map p | p in s.posts :: DetachCategory(s.posts[p], cid))
  }

  /** A post after the location it refers to is deleted (`SET_NULL`). */
  function DetachLocation(p: Post, lid: Id): Post {
    if p.location == Some(lid) then p.(location := None) else p
  }

  /** Deleting a location: its posts stay, with `location` set to null and
      every other field as it was. */
  function WithoutLocation(s: Store, lid: Id): (r: Store)
    ensures r.locations.Keys == s.locations.Keys - {lid}
    ensures forall k :: k in r.locations ==> r.locations[k] == s.locations[k]
    ensures r.posts.Keys == s.posts.Keys
    ensures forall p :: p in s.posts && s.posts[p].location == Some(lid) ==> r.posts[p].location.None?
    ensures forall p :: p in s.posts && s.posts[p].location != Some(lid) ==> r.posts[p] == s.posts[p]
    ensures forall p, f :: p in s.posts && f != PostLocation ==> PostValue(r.posts[p], f) == PostValue(s.posts[p], f)
    ensures r.users == s.users && r.categories == s.categories && r.comments == s.comments
    ensures Valid(s) ==> Valid(r)
  {
    s.(locations := s.locations - {lid},
       posts := map p | p in s.posts :: DetachLocation(s.posts[p], lid))
  }

  /** After a user is deleted nothing in the database refers to them: no post
      has them as author, no comment has them as author, and no comment hangs
      on one of their posts. */
  lemma UserDeletionLeavesNoTrace(s: Store, uid: Id)
    requires Valid(s)
    ensures var r := WithoutUser(s, uid);
      && Valid(r)
      && uid !in r.users
      && (forall p :: p in r.posts ==> r.posts[p].author != uid)
      && (forall c :: c in r.comments ==> r.comments[c].author != uid && r.comments[c].post in r.posts)
  {
  }
}
