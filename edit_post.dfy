/**
 * The update handler: request gates, the ordered validation errors, the
 * featured-image step (keep, remove or replace, and which old file is
 * unlinked), and the UPDATE of one row.
 */
module EditPost {
  import opened Wrappers
  import opened Php
  import opened Posts
  import opened Store

  /** The parts of `$_SERVER`, `$_POST` and `$_FILES` the handler reads. */
  datatype EditRequest = EditRequest(
    requestMethod: string,
    submitPost: Option<string>,
    postId: Option<string>,
    csrfToken: Option<string>,
    title: Option<string>,
    slug: Option<string>,
    content: Option<string>,
    categoryId: Option<string>,
    status: Option<string>,
    removeImage: Option<string>,
    metaDescription: Option<string>,
    metaKeywords: Option<string>,
    metaTitle: Option<string>,
    ogImageUrl: Option<string>,
    excerpt: Option<string>,
    authorId: Option<string>,
    image: UploadField)

  /**
   * Everything outside the request: the session, the `admin_users` ids, how
   * each statement goes, the connection and statement error texts, what
   * `handle_file_upload` returns, and the clock.
   */
  datatype EditEnv = EditEnv(
    loggedIn: bool,
    adminIds: set<int>,
    imageLookup: StmtResult,
    authorLookup: StmtResult,
    slugLookup: StmtResult,
    dbError: string,
    upload: UploadResult,
    update: StmtResult,
    stmtError: string,
    now: Timestamp)

  // ------------------------------------------------------------ gates

  const Update: string := "update"
  const Create: string := "create"
  const InvalidSubmission: string := "Invalid form submission"
  const InvalidPostId: string := "Invalid or missing post ID"
  const EditCsrfInvalid: string := "Invalid security token. Please try again."

  function WrongMethod(requestMethod: string): string {
    "Invalid request method. Expected POST, got " + requestMethod
  }

  /** `isset($_POST['post_id']) ? (int)$_POST['post_id'] : 0`. */
  function PostId(req: EditRequest): int {
    if req.postId.Some? then IntVal(req.postId.value) else 0
  }

  /** Where a kept form goes back to: the edit page for a positive id, the list otherwise. */
  function BackTo(postId: int): (p: AdminPage)
    ensures p.EditPostPage? <==> postId > 0
  {
    if postId > 0 then EditPostPage(postId) else PostsPage
  }

  /** The checks that end the run before any validation: login, method, submit value, id, CSRF token. */
  function EditGate(req: EditRequest, h: Helpers, env: EditEnv): (r: Option<Response>)
    ensures r.None? <==>
      && env.loggedIn && req.requestMethod == "POST"
      && req.submitPost.Some? && (req.submitPost.value == Update || req.submitPost.value == Create)
      && !(req.submitPost.value == Update && PostId(req) <= 0)
      && req.csrfToken.Some? && h.validateCsrf(req.csrfToken.value)
    ensures r.Some? ==> r.value.flash.Some? && r.value.flash.value.kind == Error
                        && r.value.formErrors == [] && r.value.unlinked == []
    ensures r.Some? && r.value.keepsFormData ==>
      r.value.flash.value.message == EditCsrfInvalid && r.value.redirect == BackTo(PostId(req))
  {
    if !env.loggedIn then Some(ErrorFlash(NotLoggedIn, false, LoginPage))
    else if req.requestMethod != "POST" then Some(ErrorFlash(WrongMethod(req.requestMethod), false, PostsPage))
    else if req.submitPost.None? || (req.submitPost.value != Update && req.submitPost.value != Create) then
      Some(ErrorFlash(InvalidSubmission, false, PostsPage))
    else if req.submitPost.value == Update && PostId(req) <= 0 then Some(ErrorFlash(InvalidPostId, false, PostsPage))
    else if req.csrfToken.None? || !h.validateCsrf(req.csrfToken.value) then
      Some(ErrorFlash(EditCsrfInvalid, true, BackTo(PostId(req))))
    else None
  }

  // ------------------------------------------------------------ the checks

  const EditContentRequired: string := "Post content is required."
  const MetaDescriptionTooLong: string := "Meta Description should not exceed 255 characters."
  const MetaKeywordsTooLong: string := "Meta Keywords should not exceed 255 characters."
  const EditSlugNotGenerated: string := "Slug could not be generated from the title."
  const MetaLimit: int := 255

  /** `empty($raw) && strlen(strip_tags($raw)) < 2`. */
  function EditContentErrors(raw: string, h: Helpers): (r: seq<string>)
    ensures r != [] ==> r == [EditContentRequired] && EmptyStr(raw)
  {
    if EmptyStr(raw) && ByteLength(h.stripTags(raw)) < 2 then [EditContentRequired] else []
  }

  /** When `strip_tags` leaves "" and "0" as they are, content is required exactly when it is `empty()`. */
  lemma EditContentRequiredExactly(raw: string, h: Helpers)
    requires h.stripTags("") == "" && h.stripTags("0") == "0"
    ensures EditContentErrors(raw, h) != [] <==> EmptyStr(raw)
  {
    if EmptyStr(raw) {
      assert raw == "" || raw == "0";
      assert ByteLength("0") == 1;
    }
  }

  /** The length limits on the two meta fields, counted in bytes as `strlen` does. */
  function MetaErrors(description: string, keywords: string): (r: seq<string>)
    ensures MetaDescriptionTooLong in r <==> ByteLength(description) > MetaLimit
    ensures MetaKeywordsTooLong in r <==> ByteLength(keywords) > MetaLimit
    ensures forall m :: m in r ==> m == MetaDescriptionTooLong || m == MetaKeywordsTooLong
    ensures |r| <= 2
  {
    (if ByteLength(description) > MetaLimit then [MetaDescriptionTooLong] else [])
    + (if ByteLength(keywords) > MetaLimit then [MetaKeywordsTooLong] else [])
  }

  /** Both meta fields pass exactly when neither is longer than 255 bytes. */
  lemma MetaErrorsEmptyIff(description: string, keywords: string)
    ensures MetaErrors(description, keywords) == [] <==>
              ByteLength(description) <= MetaLimit && ByteLength(keywords) <= MetaLimit
  {
    var m := MetaErrors(description, keywords);
    if m != [] {
      assert m[0] in m;
    }
  }

  /**
   * A field of at most 63 characters is at most 252 UTF-8 bytes, so it always
   * passes the 255-byte check, whatever the characters.
   */
  lemma ShortMetaPasses(description: string, keywords: string)
    requires 4 * |description| <= MetaLimit && 4 * |keywords| <= MetaLimit
    ensures MetaErrors(description, keywords) == []
  {
  }

  function EditSlugInUse(slug: string, h: Helpers): string {
    "This slug ('" + h.escHtml(slug) + "') is already in use by another post."
  }

  function EditSlugDbError(dbError: string): string {
    "DB error preparing slug check: " + dbError
  }

  /** The slug checks of an edit: the lookup leaves out the edited row itself. */
  function EditSlugErrors(slug: string, title: string, rows: Table, postId: int, lookup: StmtResult,
                          dbError: string, h: Helpers): (r: seq<string>)
    ensures |r| <= 1
    ensures EmptyStr(slug) ==> (r != [] <==> !EmptyStr(title)) && (r != [] ==> r == [EditSlugNotGenerated])
    ensures !EmptyStr(slug) && lookup == Executed ==> (r != [] <==> SlugTaken(rows, slug, Some(postId)))
    ensures !EmptyStr(slug) && lookup == PrepareFailed ==> r == [EditSlugDbError(dbError)]
  {
    if !EmptyStr(slug) then
      if lookup == PrepareFailed then [EditSlugDbError(dbError)]
      // a failed execute leaves num_rows at 0: no conflict is reported
      else if lookup == Executed && SlugTaken(rows, slug, Some(postId)) then [EditSlugInUse(slug, h)]
      else []
    else if !EmptyStr(title) then [EditSlugNotGenerated]
    else []
  }

  /** Resubmitting the slug a post already has never reports a conflict. */
  lemma KeepingOwnSlugPasses(rows: Table, postId: int, title: string, h: Helpers, dbError: string)
    requires SlugsUnique(rows) && postId in rows && !EmptyStr(rows[postId].slug)
    ensures EditSlugErrors(rows[postId].slug, title, rows, postId, Executed, dbError, h) == []
  {
    OwnSlugIsFree(rows, postId);
  }

  // ------------------------------------------------------------ the featured image

  const EditUploadErrorPrefix: string := "Error uploading new featured image. Code: "

  /** The errors the image step adds: those of `handle_file_upload`, or the failed upload's code. */
  function ImageErrors(u: UploadField, upload: UploadResult): (r: seq<string>)
    ensures !UploadSucceeded(u) && !UploadFailed(u) ==> r == []
    ensures UploadFailed(u) ==> r == [EditUploadErrorPrefix + IntToString(u.code)]
    ensures UploadSucceeded(u) ==> r == (if upload.Rejected? then upload.errors else [])
  {
    if UploadSucceeded(u) then (if upload.Rejected? then upload.errors else [])
    else if UploadFailed(u) then [EditUploadErrorPrefix + IntToString(u.code)]
    else []
  }

  /** The stored file name, when a new upload went through. */
  function NewUpload(u: UploadField, upload: UploadResult): Option<string> {
    if UploadSucceeded(u) && upload.Stored? then Some(upload.fileName) else None
  }

  /** The image the row keeps: a new upload, else none when removal was asked for, else the old one. */
  function EditImage(old_: Option<string>, remove: bool, u: UploadField, upload: UploadResult): Option<string> {
    var uploaded := NewUpload(u, upload);
    if uploaded.Some? then uploaded
    else if remove && !EmptyOpt(old_) then None
    else old_
  }

  /** The old file is unlinked when removal was asked for, or when a different new file replaces it. */
  function EditUnlinks(old_: Option<string>, remove: bool, u: UploadField, upload: UploadResult): seq<string> {
    var uploaded := NewUpload(u, upload);
    if !EmptyOpt(old_) && (remove || (uploaded.Some? && uploaded.value != old_.value)) then [old_.value] else []
  }

  /**
   * The image block: remove the old file when asked, then take a stored
   * upload, unlinking an old file that differs from it unless it is already gone.
   */
  method HandleImage(old_: Option<string>, remove: bool, u: UploadField, upload: UploadResult)
    returns (image: Option<string>, unlinked: seq<string>)
    ensures image == EditImage(old_, remove, u, upload)
    ensures unlinked == EditUnlinks(old_, remove, u, upload)
  {
    image, unlinked := old_, [];
    if remove && !EmptyOpt(old_) {
      unlinked := unlinked + [old_.value];
      image := None;
    }
    if UploadSucceeded(u) {
      match upload
      case Stored(name) =>
        if !EmptyOpt(old_) && old_.value != name && !remove {
          unlinked := unlinked + [old_.value];
        }
        image := Some(name);
      case Rejected(_) =>
    }
  }

  /**
   * The three outcomes of the image step: at most the old file is ever
   * unlinked, and at most once; the file the row ends up with is never the
   * one unlinked; and without removal or a stored upload nothing changes.
   */
  lemma ImageOutcomes(old_: Option<string>, remove: bool, u: UploadField, upload: UploadResult)
    ensures |EditUnlinks(old_, remove, u, upload)| <= 1
    ensures forall f :: f in EditUnlinks(old_, remove, u, upload) ==> old_ == Some(f)
    ensures !remove && EditImage(old_, remove, u, upload).Some? ==>
              EditImage(old_, remove, u, upload).value !in EditUnlinks(old_, remove, u, upload)
    ensures !remove && NewUpload(u, upload).None? ==>
              EditImage(old_, remove, u, upload) == old_ && EditUnlinks(old_, remove, u, upload) == []
    ensures NewUpload(u, upload).Some? ==> EditImage(old_, remove, u, upload) == NewUpload(u, upload)
    ensures remove && NewUpload(u, upload).None? && !EmptyOpt(old_) ==> EditImage(old_, remove, u, upload).None?
  {
  }

  // ------------------------------------------------------------ the whole validation

  function Title(req: EditRequest): string { Field(req.title) }
  function RawContent(req: EditRequest): string { req.content.GetOr("") }
  function OgUrl(req: EditRequest): string { Field(req.ogImageUrl) }

  function EditSlug(req: EditRequest, h: Helpers): string {
    ChooseSlug(Field(req.slug), Title(req), h)
  }

  /** `isset($_POST['remove_featured_image']) && $_POST['remove_featured_image'] == '1'`. */
  function RemoveRequested(req: EditRequest): bool {
    req.removeImage == Some("1")
  }

  /** The row's current image, when the lookup by id ran and found the row. */
  function OldImage(rows: Table, postId: int, lookup: StmtResult): Option<string> {
    if lookup == Executed && postId in rows then rows[postId].featuredImage else None
  }

  /** The full error list: author, OG URL, title, content, meta lengths, slug, image. */
  function EditErrors(req: EditRequest, h: Helpers, rows: Table, env: EditEnv): seq<string> {
    AuthorErrors(req.authorId, h, env.adminIds, env.authorLookup)
    + OgUrlErrors(OgUrl(req), h)
    + TitleErrors(Title(req))
    + EditContentErrors(RawContent(req), h)
    + MetaErrors(Field(req.metaDescription), Field(req.metaKeywords))
    + EditSlugErrors(EditSlug(req, h), Title(req), rows, PostId(req), env.slugLookup, env.dbError, h)
    + ImageErrors(req.image, env.upload)
  }

  /** Every check runs and appends to one list; the image step has already unlinked files by then. */
  method ValidateEdit(req: EditRequest, h: Helpers, rows: Table, env: EditEnv)
    returns (errors: seq<string>, slug: string, image: Option<string>, unlinked: seq<string>)
    ensures errors == EditErrors(req, h, rows, env)
    ensures slug == EditSlug(req, h)
    ensures var old_ := OldImage(rows, PostId(req), env.imageLookup);
            image == EditImage(old_, RemoveRequested(req), req.image, env.upload)
            && unlinked == EditUnlinks(old_, RemoveRequested(req), req.image, env.upload)
  {
    var postId := PostId(req);
    var oldImage := OldImage(rows, postId, env.imageLookup);
    var title := Field(req.title);
    errors := AuthorErrors(req.authorId, h, env.adminIds, env.authorLookup);
    errors := errors + OgUrlErrors(Field(req.ogImageUrl), h);
    errors := errors + TitleErrors(title);
    errors := errors + EditContentErrors(req.content.GetOr(""), h);
    errors := errors + MetaErrors(Field(req.metaDescription), Field(req.metaKeywords));
    slug := ChooseSlug(Field(req.slug), title, h);
    errors := errors + EditSlugErrors(slug, title, rows, postId, env.slugLookup, env.dbError, h);
    image, unlinked := HandleImage(oldImage, RemoveRequested(req), req.image, env.upload);
    errors := errors + ImageErrors(req.image, env.upload);
  }

  /** The checks before the image step, one by one: the list is empty exactly when each part is. */
  lemma EditErrorsEmpty(req: EditRequest, h: Helpers, rows: Table, env: EditEnv)
    ensures EditErrors(req, h, rows, env) == [] <==>
      && AuthorErrors(req.authorId, h, env.adminIds, env.authorLookup) == []
      && OgUrlErrors(OgUrl(req), h) == []
      && TitleErrors(Title(req)) == []
      && EditContentErrors(RawContent(req), h) == []
      && MetaErrors(Field(req.metaDescription), Field(req.metaKeywords)) == []
      && EditSlugErrors(EditSlug(req, h), Title(req), rows, PostId(req), env.slugLookup, env.dbError, h) == []
      && ImageErrors(req.image, env.upload) == []
  {
    var es := EditErrors(req, h, rows, env);
    assert |es| == |AuthorErrors(req.authorId, h, env.adminIds, env.authorLookup)|
      + |OgUrlErrors(OgUrl(req), h)| + |TitleErrors(Title(req))| + |EditContentErrors(RawContent(req), h)|
      + |MetaErrors(Field(req.metaDescription), Field(req.metaKeywords))|
      + |EditSlugErrors(EditSlug(req, h), Title(req), rows, PostId(req), env.slugLookup, env.dbError, h)|
      + |ImageErrors(req.image, env.upload)|;
  }

  /** An accepted edit, stated check by check. */
  predicate EditAcceptable(req: EditRequest, h: Helpers, rows: Table, env: EditEnv) {
    var slug := EditSlug(req, h);
    && !AuthorMalformed(req.authorId, h) && env.authorLookup == Executed && AuthorId(req.authorId) in env.adminIds
    && (EmptyStr(OgUrl(req)) || h.isValidUrl(OgUrl(req)))
    && !EmptyStr(Title(req))
    && !EmptyStr(RawContent(req))
    && ByteLength(Field(req.metaDescription)) <= MetaLimit && ByteLength(Field(req.metaKeywords)) <= MetaLimit
    && !EmptyStr(slug)
    && env.slugLookup != PrepareFailed
    && (env.slugLookup == Executed ==> !SlugTaken(rows, slug, Some(PostId(req))))
    && !UploadFailed(req.image)
    && (UploadSucceeded(req.image) && env.upload.Rejected? ==> env.upload.errors == [])
  }

  /** The error list is empty exactly when the edit is acceptable. */
  lemma EditErrorsEmptyIff(req: EditRequest, h: Helpers, rows: Table, env: EditEnv)
    requires h.stripTags("") == "" && h.stripTags("0") == "0"
    ensures EditErrors(req, h, rows, env) == [] <==> EditAcceptable(req, h, rows, env)
  {
    EditErrorsEmpty(req, h, rows, env);
    EditContentRequiredExactly(RawContent(req), h);
    MetaErrorsEmptyIff(Field(req.metaDescription), Field(req.metaKeywords));
  }

  /** An accepted edit whose slug lookup ran carries a slug no other row holds. */
  lemma AcceptedEditSlugIsFree(req: EditRequest, h: Helpers, rows: Table, env: EditEnv)
    requires EditErrors(req, h, rows, env) == [] && env.slugLookup == Executed
    ensures !SlugTaken(rows, EditSlug(req, h), Some(PostId(req)))
  {
    EditErrorsEmpty(req, h, rows, env);
  }

  // ------------------------------------------------------------ the write

  const ExcerptLength: int := 155

  /** The excerpt to save: the submitted one, or one generated from the clean content. */
  function EditExcerpt(req: EditRequest, h: Helpers): string {
    var excerpt := Field(req.excerpt);
    var clean := CleanContent(RawContent(req), h);
    if EmptyStr(excerpt) && !EmptyStr(clean) then h.generateExcerpt(clean, ExcerptLength) else excerpt
  }

  /** The twelve columns the UPDATE sets. */
  function EditColumns(req: EditRequest, h: Helpers, image: Option<string>): (c: Columns)
    ensures c.authorId == AuthorId(req.authorId) && c.title == Title(req) && c.slug == EditSlug(req, h)
    ensures c.content == CleanContent(RawContent(req), h)
    ensures c.status == if req.status == Some(Published) then Published else Draft
    ensures c.categoryId == if EmptyOpt(req.categoryId) || IntVal(req.categoryId.value) == 0 then None
                            else Some(IntVal(req.categoryId.value))
    ensures c.featuredImage == image
    ensures c.metaTitle.None? <==> EmptyStr(Field(req.metaTitle))
    ensures c.metaTitle.Some? ==> c.metaTitle.value == Field(req.metaTitle)
    ensures c.metaDescription.None? <==> EmptyStr(Field(req.metaDescription))
    ensures c.metaDescription.Some? ==> c.metaDescription.value == Field(req.metaDescription)
    ensures c.metaKeywords.None? <==> EmptyStr(Field(req.metaKeywords))
    ensures c.metaKeywords.Some? ==> c.metaKeywords.value == Field(req.metaKeywords)
    ensures c.ogImageUrl.None? <==> EmptyStr(OgUrl(req))
    ensures c.ogImageUrl.Some? ==> c.ogImageUrl.value == OgUrl(req)
    ensures !EmptyStr(Field(req.excerpt)) ==> c.excerpt == Some(Field(req.excerpt))
    ensures EmptyStr(Field(req.excerpt)) && EmptyStr(CleanContent(RawContent(req), h)) ==> c.excerpt.None?
    ensures EmptyStr(Field(req.excerpt)) && !EmptyStr(CleanContent(RawContent(req), h)) ==>
              c.excerpt == NullIfEmpty(h.generateExcerpt(CleanContent(RawContent(req), h), ExcerptLength))
  {
    Columns(AuthorId(req.authorId), Title(req), EditSlug(req, h), CleanContent(RawContent(req), h),
            CategoryToSave(CategoryInput(req.categoryId)), NormaliseStatus(req.status), image,
            NullIfEmpty(Field(req.metaTitle)), NullIfEmpty(Field(req.metaDescription)),
            NullIfEmpty(Field(req.metaKeywords)), NullIfEmpty(OgUrl(req)), NullIfEmpty(EditExcerpt(req, h)))
  }

  function UpdatedMessage(status: string, h: Helpers): string {
    "Post updated successfully with status: '" + h.escHtml(status) + "'"
  }

  function UpdatePrepareFailed(dbError: string, h: Helpers): string {
    "Database error: " + h.escHtml(dbError)
  }

  function UpdateFailedMessage(stmtError: string, h: Helpers): string {
    "Error updating post: " + h.escHtml(stmtError)
  }

  /** Rewriting one row's columns to a slug no other row holds keeps slugs unique. */
  lemma RewriteKeepsSlugsUnique(rows: Table, id: int, p: Post)
    requires SlugsUnique(rows) && id in rows && !SlugTaken(rows, p.slug, Some(id))
    ensures SlugsUnique(rows[id := p])
  {
    var rows' := rows[id := p];
    forall a, b | a in rows' && b in rows' && a != b
      ensures rows'[a].slug != rows'[b].slug
    {
      if a == id {
        assert !(b in rows && rows[b].slug == p.slug && Some(b) != Some(id));
      } else if b == id {
        assert !(a in rows && rows[a].slug == p.slug && Some(a) != Some(id));
      }
    }
  }

  /** Rewriting one row with one of the two statuses keeps every status valid. */
  lemma RewriteKeepsStatusesValid(rows: Table, id: int, p: Post)
    requires StatusesValid(rows) && (p.status == Published || p.status == Draft)
    ensures StatusesValid(rows[id := p])
  {
  }

  /** A response that carries the unlinked files along with an error flash and the kept form. */
  function EditFailure(message: string, postId: int, unlinked: seq<string>): Response {
    Response(Some(Flash(message, Error)), [], true, EditPostPage(postId), unlinked)
  }

  /**
   * The update handler. A gate leaves the table and the files alone. Past the
   * gates the image step runs before the error check, so its unlinks happen
   * on every path. Validation errors and a failed statement leave the table as
   * it was; an executed UPDATE rewrites the twelve columns and `updated_at` of
   * row `post_id` when it exists, keeps its `view_count` and `created_at`, and
   * changes no other row.
   */
  method UpdatePost(db: PostsTable, req: EditRequest, h: Helpers, env: EditEnv) returns (resp: Response)
    requires db.Valid()
    modifies db`rows
    ensures db.Valid()
    ensures EditGate(req, h, env).Some? ==> resp == EditGate(req, h, env).value && db.rows == old(db.rows)
    ensures EditGate(req, h, env).None? ==>
      var postId := PostId(req);
      var old_ := OldImage(old(db.rows), postId, env.imageLookup);
      var image := EditImage(old_, RemoveRequested(req), req.image, env.upload);
      var unlinked := EditUnlinks(old_, RemoveRequested(req), req.image, env.upload);
      var errors := EditErrors(req, h, old(db.rows), env);
      && resp.unlinked == unlinked
      && (errors != [] ==>
            resp == Response(None, errors, true, EditPostPage(postId), unlinked) && db.rows == old(db.rows))
      && (errors == [] && env.update == Executed ==>
            && (postId in old(db.rows) ==>
                  db.rows == old(db.rows)[postId := Rewrite(old(db.rows)[postId], EditColumns(req, h, image), env.now)])
            && (postId !in old(db.rows) ==> db.rows == old(db.rows))
            && resp == Response(Some(Flash(UpdatedMessage(NormaliseStatus(req.status), h), Success)), [], false, PostsPage, unlinked))
      && (errors == [] && env.update == PrepareFailed ==>
            resp == EditFailure(UpdatePrepareFailed(env.dbError, h), postId, unlinked) && db.rows == old(db.rows))
      && (errors == [] && env.update == ExecuteFailed ==>
            resp == EditFailure(UpdateFailedMessage(env.stmtError, h), postId, unlinked) && db.rows == old(db.rows))
    ensures SlugsUnique(old(db.rows)) && env.slugLookup == Executed ==> SlugsUnique(db.rows)
    ensures StatusesValid(old(db.rows)) ==> StatusesValid(db.rows)
  {
    var gate := EditGate(req, h, env);
    if gate.Some? {
      return gate.value;
    }
    var postId := PostId(req);
    var errors, slug, image, unlinked := ValidateEdit(req, h, db.rows, env);
    if errors != [] {
      return Response(None, errors, true, EditPostPage(postId), unlinked);
    }
    var columns := EditColumns(req, h, image);
    match env.update
    case PrepareFailed =>
      resp := EditFailure(UpdatePrepareFailed(env.dbError, h), postId, unlinked);
    case ExecuteFailed =>
      resp := EditFailure(UpdateFailedMessage(env.stmtError, h), postId, unlinked);
    case Executed =>
      ghost var before := db.rows;
      db.UpdateRow(postId, columns, env.now);
      if postId in before {
        ghost var row := Rewrite(before[postId], columns, env.now);
        if env.slugLookup == Executed && SlugsUnique(before) {
          AcceptedEditSlugIsFree(req, h, before, env);
          RewriteKeepsSlugsUnique(before, postId, row);
        }
        if StatusesValid(before) {
          RewriteKeepsStatusesValid(before, postId, row);
        }
      }
      resp := Response(Some(Flash(UpdatedMessage(NormaliseStatus(req.status), h), Success)), [], false, PostsPage, unlinked);
  }

  /**
   * A rejected edit still unlinks: asking to remove the image while leaving
   * the title empty deletes the file that the unchanged row goes on naming.
   */
  lemma RejectedEditStillUnlinks(req: EditRequest, h: Helpers, rows: Table, env: EditEnv)
    requires env.imageLookup == Executed && PostId(req) in rows
    requires rows[PostId(req)].featuredImage == Some("a.jpg")
    requires RemoveRequested(req) && Title(req) == ""
    ensures EditErrors(req, h, rows, env) != []
    ensures EditUnlinks(OldImage(rows, PostId(req), env.imageLookup), RemoveRequested(req), req.image, env.upload) == ["a.jpg"]
  {
    assert TitleErrors(Title(req)) != [];
    EditErrorsEmpty(req, h, rows, env);
    EmptyStrCases("a.jpg");
    assert !EmptyOpt(OldImage(rows, PostId(req), env.imageLookup));
  }
}
