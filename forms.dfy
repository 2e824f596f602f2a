/** The model forms: the fields each one exposes, when a submission is
    accepted, and how an accepted submission is copied onto a record. A field
    outside a form's list cannot be set through that form, whatever the
    request carries. */
module Forms {
  import opened Models

  // ---------------------------------------------------------------------
  // PostForm: every editable post field except `author`

  const PostFormFields: set<PostField> := EditablePostFields - {PostAuthor}

  /** A submitted post form. `image` is None when no new picture is uploaded. */
  datatype PostInput = PostInput(
    title: string,
    text: string,
    image: Option<string>,
    pubDate: Time,
    location: Option<Id>,
    category: Option<Id>,
    isPublished: bool)

  /** Accepted when the required fields are filled in: `title` (at most 256
      characters) and `text`, and a `location` and a `category` chosen among
      the existing rows; both foreign keys are nullable but not blank, so the
      form requires them. `image` is optional and an unticked `is_published`
      reads as false. */
  predicate PostInputValid(s: Store, f: PostInput) {
    && 0 < |f.title| <= 256
    && f.text != ""
    && f.location.Some? && f.location.value in s.locations
    && f.category.Some? && f.category.value in s.categories
  }

  /** Binding a submission to a post changes the form's fields only. */
  function ApplyPostForm(p: Post, f: PostInput): (r: Post)
    ensures forall fld :: fld !in PostFormFields ==> PostValue(r, fld) == PostValue(p, fld)
    ensures r.title == f.title && r.text == f.text && r.pubDate == f.pubDate
    ensures r.location == f.location && r.category == f.category && r.isPublished == f.isPublished
    ensures r.image == (if f.image.Some? then f.image.value else p.image)
  {
    p.(title := f.title, text := f.text,
       image := if f.image.Some? then f.image.value else p.image,
       pubDate := f.pubDate, location := f.location, category := f.category,
       isPublished := f.isPublished)
  }

  /** The post a creation form saves: the submission bound to a blank post
      whose author the server sets to the requester, stamped with `now`. */
  function NewPostFromForm(author: Id, f: PostInput, now: Time): (r: Post)
    ensures r.author == author && r.createdAt == now
    ensures r.title == f.title && r.text == f.text && r.pubDate == f.pubDate
    ensures r.location == f.location && r.category == f.category && r.isPublished == f.isPublished
    ensures r.image == (if f.image.Some? then f.image.value else "")
  {
    ApplyPostForm(BlankPost(author, now), f)
  }

  /** An accepted post form leaves the post with a title of at most 256
      characters, a text, and a category and a location that exist. */
  lemma AcceptedPostFormKeepsRefs(s: Store, p: Post, f: PostInput)
    requires PostInputValid(s, f) && p.author in s.users
    ensures var r := ApplyPostForm(p, f);
      && PostRefsOk(s, r)
      && r.category.Some? && r.location.Some?
      && 0 < |r.title| <= 256 && r.text != ""
  {
  }

  // ---------------------------------------------------------------------
  // CommentForm: `text` only

  const CommentFormFields: set<CommentField> := {CommentText}

  datatype CommentInput = CommentInput(text: string)

  predicate CommentInputValid(f: CommentInput) {
    f.text != ""
  }

  function ApplyCommentForm(c: Comment, f: CommentInput): (r: Comment)
    ensures forall fld :: fld !in CommentFormFields ==> CommentValue(r, fld) == CommentValue(c, fld)
    ensures r.text == f.text
  {
    c.(text := f.text)
  }

  /** The comment the add-comment view saves: the submitted text, with the
      requester as author and the post of the URL, stamped with `now`. */
  function NewComment(author: Id, post: Id, f: CommentInput, now: Time): (r: Comment)
    ensures r.author == author && r.post == post && r.text == f.text && r.createdAt == now
  {
    Comment(f.text, post, now, author)
  }

  /** An accepted comment form leaves a non-empty text and the comment's
      links as they were. */
  lemma AcceptedCommentFormKeepsRefs(s: Store, c: Comment, f: CommentInput)
    requires CommentInputValid(f) && CommentRefsOk(s, c)
    ensures CommentRefsOk(s, ApplyCommentForm(c, f)) && ApplyCommentForm(c, f).text != ""
  {
  }

  // ---------------------------------------------------------------------
  // UserForm and UserRegistrationForm

  const UserFormFields: set<UserField> := {Username, FirstName, LastName, Email}

  datatype UserInput = UserInput(username: string, firstName: string, lastName: string, email: string)

  /** A username the user table accepts for the account `self` (None for a
      new account): non-empty, at most 150 characters, held by no other row. */
  predicate UsernameAvailable(s: Store, name: string, self: Option<Id>) {
    && 0 < |name| <= 150
    && forall u :: u in s.users && Some(u) != self ==> s.users[u].username != name
  }

  predicate UserInputValid(s: Store, uid: Id, f: UserInput) {
    UsernameAvailable(s, f.username, Some(uid))
  }

  function ApplyUserForm(u: User, f: UserInput): (r: User)
    ensures forall fld :: fld !in UserFormFields ==> UserValue(r, fld) == UserValue(u, fld)
    ensures r.username == f.username && r.firstName == f.firstName
    ensures r.lastName == f.lastName && r.email == f.email
  {
    u.(username := f.username, firstName := f.firstName, lastName := f.lastName, email := f.email)
  }

  /** Registration asks for `username` and `email`; the base creation form
      adds the two password fields. */
  const RegistrationFormFields: set<UserField> := {Username, Email}

  datatype RegistrationInput = RegistrationInput(username: string, email: string, password1: string, password2: string)

  /** Accepted when the username is free and the two passwords agree. */
  predicate RegistrationValid(s: Store, f: RegistrationInput) {
    && UsernameAvailable(s, f.username, None)
    && f.password1 != ""
    && f.password1 == f.password2
  }

  /** The account a registration creates: the two form fields, the password,
      and every other field blank. */
  function UserFromRegistration(f: RegistrationInput): (r: User)
    ensures r.username == f.username && r.email == f.email && r.password == f.password1
    ensures forall fld :: fld !in RegistrationFormFields && fld != Password ==> UserValue(r, fld) == Str("")
  {
    User(f.username, "", "", f.email, f.password1)
  }

  /** An accepted registration adds an account whose username is new, at
      most 150 characters long, and whose password was typed twice alike. */
  lemma AcceptedRegistrationKeepsNamesUnique(s: Store, id: Id, f: RegistrationInput)
    requires UniqueUsernames(s) && RegistrationValid(s, f) && id !in s.users
    ensures UniqueUsernames(s.(users := s.users[id := UserFromRegistration(f)]))
    ensures 0 < |UserFromRegistration(f).username| <= 150
    ensures UserFromRegistration(f).password == f.password2 != ""
  {
  }
}
