/** The database as an object whose methods change it.

    The first eight methods are the views that change the database; each
    checks what its view checks, in the view's order, and then either leaves
    every table as it was or makes exactly the change the submitted form
    calls for. The last five (`AddCategory`, `AddLocation`, `RemoveUser`,
    `RemoveCategory`, `RemoveLocation`) belong to no view: they stand for the
    rows the admin site creates and deletes, with the model's defaults and
    deletion rules. */
module Site {
  import opened Models
  import opened Forms
  import opened Views

  class Blog {
    var db: Store
    /** The next primary key to hand out; every key in use is below it. */
    var nextId: Id

    ghost predicate Valid()
      reads this
    {
      && Models.Valid(db)
      && (forall id :: id in db.users ==> id < nextId)
      && (forall id :: id in db.locations ==> id < nextId)
      && (forall id :: id in db.categories ==> id < nextId)
      && (forall id :: id in db.posts ==> id < nextId)
      && (forall id :: id in db.comments ==> id < nextId)
    }

    /** A signed-in viewer's account exists: the session framework resolves a
        stale session to the anonymous user. */
    ghost predicate KnownViewer(viewer: Viewer)
      reads this
    {
      viewer.Some? ==> viewer.value in db.users
    }

    constructor ()
      ensures Valid()
      ensures db == Store(map[], map[], map[], map[], map[])
    {
      db := Store(map[], map[], map[], map[], map[]);
      nextId := 1;
    }

    /** The creation view: an anonymous visitor is sent to the index and
        nothing is saved; a valid form is saved as a new post whose author is
        the requester, and the requester is sent to their profile. */
    method CreatePost(viewer: Viewer, f: PostInput, now: Time) returns (r: Response<()>)
      requires Valid() && KnownViewer(viewer)
      modifies this
      ensures Valid()
      ensures viewer.None? ==> r == RedirectToIndex && db == old(db)
      ensures viewer.Some? && !PostInputValid(old(db), f) ==> r == Invalid && db == old(db)
      ensures viewer.Some? && PostInputValid(old(db), f) ==>
        && old(nextId) !in old(db).posts
        && db == old(db).(posts := old(db).posts[old(nextId) := NewPostFromForm(viewer.value, f, now)])
        && db.posts[old(nextId)].author == viewer.value
        && r == RedirectToProfile(old(db).users[viewer.value].username)
    {
      if viewer.None? {
        return RedirectToIndex;
      }
      if !PostInputValid(db, f) {
        return Invalid;
      }
      var id := nextId;
      db := db.(posts := db.posts[id := NewPostFromForm(viewer.value, f, now)]);
      nextId := nextId + 1;
      r := RedirectToProfile(db.users[viewer.value].username);
    }

    /** The add-comment view: an anonymous visitor is sent to the login page;
        an invalid form is shown again; a valid one on a missing post is a
        404; otherwise the comment is saved with the requester as author and
        the requester is sent back to the post. */
    method AddComment(viewer: Viewer, pid: Id, f: CommentInput, now: Time) returns (r: Response<()>)
      requires Valid() && KnownViewer(viewer)
      modifies this
      ensures Valid()
      ensures viewer.None? ==> r == RedirectToLogin && db == old(db)
      ensures viewer.Some? && !CommentInputValid(f) ==> r == Invalid && db == old(db)
      ensures viewer.Some? && CommentInputValid(f) && pid !in old(db).posts ==> r == NotFound && db == old(db)
      ensures viewer.Some? && CommentInputValid(f) && pid in old(db).posts ==>
        && old(nextId) !in old(db).comments
        && db == old(db).(comments := old(db).comments[old(nextId) := NewComment(viewer.value, pid, f, now)])
        && r == RedirectToDetail(pid)
    {
      if viewer.None? {
        return RedirectToLogin;
      }
      if !CommentInputValid(f) {
        return Invalid;
      }
      if pid !in db.posts {
        return NotFound;
      }
      var id := nextId;
      db := db.(comments := db.comments[id := NewComment(viewer.value, pid, f, now)]);
      nextId := nextId + 1;
      r := RedirectToDetail(pid);
    }

    /** The post edit view: after the author check, a valid form overwrites
        the form's fields of the post and the author is sent to its page. */
    method EditPost(viewer: Viewer, pid: Id, f: PostInput) returns (r: Response<()>)
      requires Valid()
      modifies this
      ensures Valid() && nextId == old(nextId)
      ensures !PostAuthorGate(old(db), viewer, pid).Ok? ==> r == PostAuthorGate(old(db), viewer, pid) && db == old(db)
      ensures PostAuthorGate(old(db), viewer, pid).Ok? && !PostInputValid(old(db), f) ==> r == Invalid && db == old(db)
      ensures PostAuthorGate(old(db), viewer, pid).Ok? && PostInputValid(old(db), f) ==>
        && db == old(db).(posts := old(db).posts[pid := ApplyPostForm(old(db).posts[pid], f)])
        && db.posts[pid].author == old(db).posts[pid].author
        && r == RedirectToDetail(pid)
    {
      var gate := PostAuthorGate(db, viewer, pid);
      if !gate.Ok? {
        return gate;
      }
      if !PostInputValid(db, f) {
        return Invalid;
      }
      db := db.(posts := db.posts[pid := ApplyPostForm(db.posts[pid], f)]);
      r := RedirectToDetail(pid);
    }

    /** The post delete view: after the author check the post and its
        comments are deleted and the author is sent to the index. */
    method DeletePost(viewer: Viewer, pid: Id) returns (r: Response<()>)
      requires Valid()
      modifies this
      ensures Valid() && nextId == old(nextId)
      ensures !PostAuthorGate(old(db), viewer, pid).Ok? ==> r == PostAuthorGate(old(db), viewer, pid) && db == old(db)
      ensures PostAuthorGate(old(db), viewer, pid).Ok? ==> db == WithoutPost(old(db), pid) && r == RedirectToIndex
    {
      var gate := PostAuthorGate(db, viewer, pid);
      if !gate.Ok? {
        return gate;
      }
      db := WithoutPost(db, pid);
      r := RedirectToIndex;
    }

    /** The comment edit view: a valid form replaces the text of the
        viewer's own comment and nothing else. */
    method EditComment(viewer: Viewer, pid: Id, cid: Id, f: CommentInput) returns (r: Response<()>)
      requires Valid()
      modifies this
      ensures Valid() && nextId == old(nextId)
      ensures !CommentAuthorGate(old(db), viewer, pid, cid).Ok? ==> r == NotFound && db == old(db)
      ensures CommentAuthorGate(old(db), viewer, pid, cid).Ok? && !CommentInputValid(f) ==> r == Invalid && db == old(db)
      ensures CommentAuthorGate(old(db), viewer, pid, cid).Ok? && CommentInputValid(f) ==>
        && db == old(db).(comments := old(db).comments[cid := ApplyCommentForm(old(db).comments[cid], f)])
        && r == RedirectToDetail(pid)
    {
      var gate := CommentAuthorGate(db, viewer, pid, cid);
      if !gate.Ok? {
        return NotFound;
      }
      if !CommentInputValid(f) {
        return Invalid;
      }
      var c := db.comments[cid];
      db := db.(comments := db.comments[cid := ApplyCommentForm(c, f)]);
      r := RedirectToDetail(c.post);
    }

    /** The comment delete view: the viewer's own comment is deleted. */
    method DeleteComment(viewer: Viewer, pid: Id, cid: Id) returns (r: Response<()>)
      requires Valid()
      modifies this
      ensures Valid() && nextId == old(nextId)
      ensures !CommentAuthorGate(old(db), viewer, pid, cid).Ok? ==> r == NotFound && db == old(db)
      ensures CommentAuthorGate(old(db), viewer, pid, cid).Ok? ==> db == WithoutComment(old(db), cid) && r == RedirectToDetail(pid)
    {
      var gate := CommentAuthorGate(db, viewer, pid, cid);
      if !gate.Ok? {
        return NotFound;
      }
      var c := db.comments[cid];
      db := WithoutComment(db, cid);
      r := RedirectToDetail(c.post);
    }

    /** The profile edit view: sign-in required; a valid form changes the
        four form fields of the requester's own record only, and the
        requester is sent to the profile under the username just saved. */
    method EditProfile(viewer: Viewer, f: UserInput) returns (r: Response<()>)
      requires Valid() && KnownViewer(viewer)
      modifies this
      ensures Valid() && nextId == old(nextId)
      ensures viewer.None? ==> r == RedirectToLogin && db == old(db)
      ensures viewer.Some? ==> ProfileToEdit(old(db), viewer) == Ok(viewer.value)
      ensures viewer.Some? && !UserInputValid(old(db), viewer.value, f) ==> r == Invalid && db == old(db)
      ensures viewer.Some? && UserInputValid(old(db), viewer.value, f) ==>
        && db == WithProfile(old(db), viewer.value, f)
        && r == RedirectToProfile(f.username)
    {
      if viewer.None? {
        return RedirectToLogin;
      }
      var uid := viewer.value;
      if !UserInputValid(db, uid, f) {
        return Invalid;
      }
      var before := db.users[uid];
      db := WithProfile(db, uid, f);
      r := ProfileEditRedirect(before, db.users[uid]);
    }

    /** The registration view: a valid form creates an account holding the
        username, the email and the password, and the visitor is sent to the
        index. */
    method Register(f: RegistrationInput) returns (r: Response<()>)
      requires Valid()
      modifies this
      ensures Valid()
      ensures !RegistrationValid(old(db), f) ==> r == Invalid && db == old(db)
      ensures RegistrationValid(old(db), f) ==>
        && old(nextId) !in old(db).users
        && db == old(db).(users := old(db).users[old(nextId) := UserFromRegistration(f)])
        && r == RedirectToIndex
    {
      if !RegistrationValid(db, f) {
        return Invalid;
      }
      var id := nextId;
      db := db.(users := db.users[id := UserFromRegistration(f)]);
      nextId := nextId + 1;
      r := RedirectToIndex;
    }

    /** Creating a category: refused when the slug is taken; otherwise saved
        with the model's defaults, published. */
    method AddCategory(title: string, description: string, slug: string, now: Time) returns (r: Response<Id>)
      requires Valid()
      modifies this
      ensures Valid()
      ensures (exists c :: c in old(db).categories && old(db).categories[c].slug == slug) ==> r == Invalid && db == old(db)
      ensures (forall c :: c in old(db).categories ==> old(db).categories[c].slug != slug) ==>
        && r == Ok(old(nextId)) && old(nextId) !in old(db).categories
        && db == old(db).(categories := old(db).categories[old(nextId) := NewCategory(title, description, slug, now)])
        && db.categories[old(nextId)].isPublished
    {
      if exists c :: c in db.categories && db.categories[c].slug == slug {
        return Invalid;
      }
      var id := nextId;
      db := db.(categories := db.categories[id := NewCategory(title, description, slug, now)]);
      nextId := nextId + 1;
      r := Ok(id);
    }

    /** Creating a location, saved with the model's defaults, published. */
    method AddLocation(name: string, now: Time) returns (r: Response<Id>)
      requires Valid()
      modifies this
      ensures Valid()
      ensures r == Ok(old(nextId)) && old(nextId) !in old(db).locations
      ensures db == old(db).(locations := old(db).locations[old(nextId) := NewLocation(name, now)])
      ensures db.locations[old(nextId)].isPublished
    {
      var id := nextId;
      db := db.(locations := db.locations[id := NewLocation(name, now)]);
      nextId := nextId + 1;
      r := Ok(id);
    }

    /** Deleting a user, with everything that cascades from it. */
    method RemoveUser(uid: Id)
      requires Valid()
      modifies this
      ensures Valid() && nextId == old(nextId)
      ensures db == WithoutUser(old(db), uid)
    {
      db := WithoutUser(db, uid);
    }

    /** Deleting a category; its posts lose their category. */
    method RemoveCategory(cid: Id)
      requires Valid()
      modifies this
      ensures Valid() && nextId == old(nextId)
      ensures db == WithoutCategory(old(db), cid)
    {
      db := WithoutCategory(db, cid);
    }

    /** Deleting a location; its posts lose their location. */
    method RemoveLocation(lid: Id)
      requires Valid()
      modifies this
      ensures Valid() && nextId == old(nextId)
      ensures db == WithoutLocation(old(db), lid)
    {
      db := WithoutLocation(db, lid);
    }
  }
}
