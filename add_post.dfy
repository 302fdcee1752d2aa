/**
 * The create handler: request gates, the ordered list of validation errors,
 * the featured-image upload step, and the single INSERT that follows when
 * the list is empty.
 */
module AddPost {
  import opened Wrappers
  import opened Php
  import opened Posts
  import opened Store

  /** The parts of `$_SERVER`, `$_GET`, `$_POST` and `$_FILES` the handler reads. */
  datatype AddRequest = AddRequest(
    isPost: bool,
    submitPost: Option<string>,
    queryId: Option<string>,
    csrfToken: Option<string>,
    title: Option<string>,
    slug: Option<string>,
    content: Option<string>,
    categoryId: Option<string>,
    status: Option<string>,
    metaDescription: Option<string>,
    metaKeywords: Option<string>,
    metaTitle: Option<string>,
    ogImageUrl: Option<string>,
    excerpt: Option<string>,
    authorId: Option<string>,
    image: UploadField)

  /** The upload directory as the handler finds it, and whether `mkdir` would create it. */
  datatype UploadDir = UploadDir(present: bool, mkdirSucceeds: bool, writable: bool)

  /**
   * Everything outside the request that the run depends on: the session, the
   * `admin_users` ids, how each statement goes, the last connection error,
   * the file system, what `handle_file_upload` returns, and the clock.
   */
  datatype AddEnv = AddEnv(
    loggedIn: bool,
    adminIds: set<int>,
    authorLookup: StmtResult,
    slugLookup: StmtResult,
    dbError: string,
    dir: UploadDir,
    upload: UploadResult,
    insert: StmtResult,
    insertErrno: int,
    now: Timestamp)

  // ------------------------------------------------------------ gates

  const BadAddRequest: string := "Invalid request method or missing submission data."
  const IdOnAdd: string := "Invalid action for adding a post."
  const AddCsrfInvalid: string := "Invalid or missing CSRF token. Please try again."

  /** The checks that end the run before any validation: login, method, stray id, CSRF token. */
  function AddGate(req: AddRequest, h: Helpers, env: AddEnv): (r: Option<Response>)
    ensures r.None? <==> env.loggedIn && req.isPost && req.submitPost.Some? && req.queryId.None?
                         && req.csrfToken.Some? && h.validateCsrf(req.csrfToken.value)
    ensures r.Some? ==> r.value.flash.Some? && r.value.flash.value.kind == Error
                        && r.value.formErrors == [] && r.value.unlinked == []
    ensures r.Some? && r.value.keepsFormData ==> env.loggedIn && r.value.flash.value.message == AddCsrfInvalid
  {
    if !env.loggedIn then Some(ErrorFlash(NotLoggedIn, false, LoginPage))
    else if !req.isPost || req.submitPost.None? then Some(ErrorFlash(BadAddRequest, false, AddPostPage))
    else if req.queryId.Some? then Some(ErrorFlash(IdOnAdd, false, AddPostPage))
    else if req.csrfToken.None? || !h.validateCsrf(req.csrfToken.value) then Some(ErrorFlash(AddCsrfInvalid, true, AddPostPage))
    else None
  }

  // ------------------------------------------------------------ the checks

  const ContentRequired: string := "Post content is required if no featured image is provided."
  const SlugNotGenerated: string := "Slug could not be generated. Ensure the title is not made of only special characters."

  function SlugInUse(slug: string, h: Helpers): string {
    "This slug ('" + h.escHtml(slug) + "') is already in use. Please provide a unique slug or modify the title."
  }

  function SlugCheckDbError(dbError: string): string {
    "Database error preparing slug check: " + dbError
  }

  /** `$_FILES['featured_image']['name']`, null when the field is absent. */
  function UploadName(u: UploadField): Option<string> {
    if u.Upload? then Some(u.name) else None
  }

  /**
   * `empty(strip_tags($raw)) && empty($_FILES[...]['name'])`, then
   * `empty($raw) && strlen(strip_tags($raw)) < 2`.
   */
  function ContentErrors(raw: string, imageName: Option<string>, h: Helpers): (r: seq<string>)
    ensures r != [] ==> r == [ContentRequired] && EmptyStr(raw) && EmptyOpt(imageName)
  {
    if EmptyStr(h.stripTags(raw)) && EmptyOpt(imageName) then
      if EmptyStr(raw) && ByteLength(h.stripTags(raw)) < 2 then [ContentRequired] else []
    else []
  }

  /**
   * When `strip_tags` leaves "" and "0" as they are, the content error is
   * raised exactly when the raw content is `empty()` and no image file was named.
   */
  lemma ContentRequiredExactly(raw: string, imageName: Option<string>, h: Helpers)
    requires h.stripTags("") == "" && h.stripTags("0") == "0"
    ensures ContentErrors(raw, imageName, h) != [] <==> EmptyStr(raw) && EmptyOpt(imageName)
  {
    if EmptyStr(raw) {
      assert raw == "" || raw == "0";
      assert ByteLength("0") == 1;
    }
  }

  /** The slug checks: one that could not be generated, the lookup's failure, or a slug in use. */
  function SlugErrors(slug: string, title: string, rows: Table, lookup: StmtResult, dbError: string, h: Helpers)
    : (r: seq<string>)
    ensures |r| <= 1
    ensures EmptyStr(slug) ==> (r != [] <==> !EmptyStr(title)) && (r != [] ==> r == [SlugNotGenerated])
    ensures !EmptyStr(slug) && lookup == Executed ==> (r != [] <==> SlugTaken(rows, slug, None))
    ensures !EmptyStr(slug) && lookup == PrepareFailed ==> r == [SlugCheckDbError(dbError)]
  {
    if EmptyStr(slug) && !EmptyStr(title) then [SlugNotGenerated]
    else if !EmptyStr(slug) then
      if lookup == PrepareFailed then [SlugCheckDbError(dbError)]
      // a failed execute leaves num_rows at 0: no conflict is reported
      else if lookup == Executed && SlugTaken(rows, slug, None) then [SlugInUse(slug, h)]
      else []
    else []
  }

  // ------------------------------------------------------------ the upload step

  const DirCreateFailed: string := "Failed to create image upload directory."
  const DirNotWritable: string := "Image upload directory is not writable or does not exist."
  const UploadErrorPrefix: string := "Error uploading featured image: "

  /** The text of `$upload_errors_map[$code] ?? "Unknown error code {$code}"`. */
  function UploadCodeText(code: int): (r: string)
    ensures code !in {UploadIniSize, UploadFormSize, UploadPartial, UploadCantWrite, UploadExtension}
            ==> r == "Unknown error code " + IntToString(code)
  {
    if code == UploadIniSize then "The uploaded file exceeds the upload_max_filesize directive in php.ini."
    else if code == UploadFormSize then "The uploaded file exceeds the MAX_FILE_SIZE directive that was specified in the HTML form."
    else if code == UploadPartial then "The uploaded file was only partially uploaded."
    else if code == UploadCantWrite then "Failed to write file to disk."
    else if code == UploadExtension then "A PHP extension stopped the file upload."
    else "Unknown error code " + IntToString(code)
  }

  /** The directory exists once `mkdir` has been tried. */
  predicate DirReady(dir: UploadDir) {
    dir.present || dir.mkdirSucceeds
  }

  /**
   * What the upload step adds to the error list `prior`: nothing without an
   * upload, one coded message for a failed upload, otherwise the directory
   * problems or the errors of `handle_file_upload`.
   */
  function UploadErrors(u: UploadField, dir: UploadDir, upload: UploadResult, prior: seq<string>): seq<string> {
    if UploadSucceeded(u) then
      var made := if !DirReady(dir) then [DirCreateFailed] else [];
      if DirReady(dir) && dir.writable then
        (if upload.Rejected? then upload.errors else [])
      else if DirCreateFailed !in prior + made then made + [DirNotWritable]
      else made
    else if UploadFailed(u) then [UploadErrorPrefix + UploadCodeText(u.code)]
    else []
  }

  /** The stored file name, when the upload went through. */
  function UploadedImage(u: UploadField, dir: UploadDir, upload: UploadResult): Option<string> {
    if UploadSucceeded(u) && DirReady(dir) && dir.writable && upload.Stored? then Some(upload.fileName) else None
  }

  /**
   * The upload block: try to create a missing directory, hand a writable one
   * to `handle_file_upload`, and otherwise explain what went wrong once.
   */
  method HandleUpload(errors: seq<string>, u: UploadField, dir: UploadDir, upload: UploadResult)
    returns (errors': seq<string>, image: Option<string>)
    ensures errors' == errors + UploadErrors(u, dir, upload, errors)
    ensures image == UploadedImage(u, dir, upload)
  {
    errors', image := errors, None;
    if UploadSucceeded(u) {
      var isDir := dir.present;
      if !isDir {
        isDir := dir.mkdirSucceeds;
        if !isDir {
          errors' := errors' + [DirCreateFailed];
        }
      }
      if isDir && dir.writable {
        match upload
        case Rejected(uploadErrors) =>
          errors' := errors' + uploadErrors;
        case Stored(name) =>
          image := Some(name);
      } else if DirCreateFailed !in errors' {
        errors' := errors' + [DirNotWritable];
      }
    } else if UploadFailed(u) {
      errors' := errors' + [UploadErrorPrefix + UploadCodeText(u.code)];
    }
  }

  /**
   * When the earlier errors do not already contain the directory message, the
   * upload step reports exactly one of: the directory could not be created, it
   * is not writable, or what `handle_file_upload` rejected; and a stored file
   * comes with no error of its own.
   */
  lemma UploadOutcomes(u: UploadField, dir: UploadDir, upload: UploadResult, prior: seq<string>)
    requires DirCreateFailed !in prior
    ensures !UploadSucceeded(u) && !UploadFailed(u) ==> UploadErrors(u, dir, upload, prior) == []
    ensures UploadFailed(u) ==> |UploadErrors(u, dir, upload, prior)| == 1
    ensures UploadSucceeded(u) && !DirReady(dir) ==> UploadErrors(u, dir, upload, prior) == [DirCreateFailed]
    ensures UploadSucceeded(u) && DirReady(dir) && !dir.writable ==> UploadErrors(u, dir, upload, prior) == [DirNotWritable]
    ensures UploadedImage(u, dir, upload).Some? ==> UploadErrors(u, dir, upload, prior) == []
    ensures UploadSucceeded(u) && DirReady(dir) && dir.writable && upload.Rejected?
            ==> UploadErrors(u, dir, upload, prior) == upload.errors
  {
    if UploadSucceeded(u) && !DirReady(dir) {
      assert DirCreateFailed in prior + [DirCreateFailed];
    }
    if UploadSucceeded(u) && DirReady(dir) && !dir.writable {
      assert prior + [] == prior;
    }
  }

  // ------------------------------------------------------------ the whole validation

  /** The trimmed fields the checks read. */
  function Title(req: AddRequest): string { Field(req.title) }
  function RawContent(req: AddRequest): string { req.content.GetOr("") }
  function OgUrl(req: AddRequest): string { Field(req.ogImageUrl) }

  function CreateSlug(req: AddRequest, h: Helpers): string {
    ChooseSlug(Field(req.slug), Title(req), h)
  }

  /** The errors before the upload step, in check order. */
  function CheckErrors(req: AddRequest, h: Helpers, rows: Table, env: AddEnv): seq<string> {
    AuthorErrors(req.authorId, h, env.adminIds, env.authorLookup)
    + OgUrlErrors(OgUrl(req), h)
    + TitleErrors(Title(req))
    + ContentErrors(RawContent(req), UploadName(req.image), h)
    + SlugErrors(CreateSlug(req, h), Title(req), rows, env.slugLookup, env.dbError, h)
  }

  /** The full error list: author, OG URL, title, content, slug, upload. */
  function CreateErrors(req: AddRequest, h: Helpers, rows: Table, env: AddEnv): seq<string> {
    var before := CheckErrors(req, h, rows, env);
    before + UploadErrors(req.image, env.dir, env.upload, before)
  }

  /**
   * The validation that decides whether the row is written: every check runs,
   * whatever the earlier ones found, and appends to one list.
   */
  method ValidateCreate(req: AddRequest, h: Helpers, rows: Table, env: AddEnv)
    returns (errors: seq<string>, slug: string, image: Option<string>)
    ensures errors == CreateErrors(req, h, rows, env)
    ensures slug == CreateSlug(req, h)
    ensures image == UploadedImage(req.image, env.dir, env.upload)
  {
    var title := Field(req.title);
    var rawContent := req.content.GetOr("");
    var ogImageUrl := Field(req.ogImageUrl);
    errors := AuthorErrors(req.authorId, h, env.adminIds, env.authorLookup);
    errors := errors + OgUrlErrors(ogImageUrl, h);
    errors := errors + TitleErrors(title);
    errors := errors + ContentErrors(rawContent, UploadName(req.image), h);
    slug := ChooseSlug(Field(req.slug), title, h);
    errors := errors + SlugErrors(slug, title, rows, env.slugLookup, env.dbError, h);
    errors, image := HandleUpload(errors, req.image, env.dir, env.upload);
  }

  /**
   * What an accepted create submission is, stated check by check: a known
   * author, a valid or absent OG URL, a title, content or an image file name,
   * a generated slug that no row holds (as far as the lookup could tell), and
   * an upload that, when attempted, reached a writable directory and came back
   * without errors.
   */
  predicate CreateAcceptable(req: AddRequest, h: Helpers, rows: Table, env: AddEnv) {
    var slug := CreateSlug(req, h);
    && !AuthorMalformed(req.authorId, h) && env.authorLookup == Executed && AuthorId(req.authorId) in env.adminIds
    && (EmptyStr(OgUrl(req)) || h.isValidUrl(OgUrl(req)))
    && !EmptyStr(Title(req))
    && !(EmptyStr(RawContent(req)) && EmptyOpt(UploadName(req.image)))
    && !EmptyStr(slug)
    && env.slugLookup != PrepareFailed
    && (env.slugLookup == Executed ==> !SlugTaken(rows, slug, None))
    && !UploadFailed(req.image)
    && (UploadSucceeded(req.image) ==>
          DirReady(env.dir) && env.dir.writable && (env.upload.Rejected? ==> env.upload.errors == []))
  }

  /** The checks before the upload step report nothing exactly when each of them reports nothing. */
  lemma CheckErrorsEmpty(req: AddRequest, h: Helpers, rows: Table, env: AddEnv)
    ensures CheckErrors(req, h, rows, env) == [] <==>
      && AuthorErrors(req.authorId, h, env.adminIds, env.authorLookup) == []
      && OgUrlErrors(OgUrl(req), h) == []
      && TitleErrors(Title(req)) == []
      && ContentErrors(RawContent(req), UploadName(req.image), h) == []
      && SlugErrors(CreateSlug(req, h), Title(req), rows, env.slugLookup, env.dbError, h) == []
  {
    var es := CheckErrors(req, h, rows, env);
    assert |es| == |AuthorErrors(req.authorId, h, env.adminIds, env.authorLookup)|
      + |OgUrlErrors(OgUrl(req), h)| + |TitleErrors(Title(req))|
      + |ContentErrors(RawContent(req), UploadName(req.image), h)|
      + |SlugErrors(CreateSlug(req, h), Title(req), rows, env.slugLookup, env.dbError, h)|;
  }

  /** Before the upload step, the list is empty exactly when the non-upload conditions hold. */
  lemma CheckErrorsEmptyIff(req: AddRequest, h: Helpers, rows: Table, env: AddEnv)
    requires h.stripTags("") == "" && h.stripTags("0") == "0"
    ensures CheckErrors(req, h, rows, env) == [] <==>
      var slug := CreateSlug(req, h);
      && !AuthorMalformed(req.authorId, h) && env.authorLookup == Executed && AuthorId(req.authorId) in env.adminIds
      && (EmptyStr(OgUrl(req)) || h.isValidUrl(OgUrl(req)))
      && !EmptyStr(Title(req))
      && !(EmptyStr(RawContent(req)) && EmptyOpt(UploadName(req.image)))
      && !EmptyStr(slug)
      && env.slugLookup != PrepareFailed
      && (env.slugLookup == Executed ==> !SlugTaken(rows, slug, None))
  {
    CheckErrorsEmpty(req, h, rows, env);
    ContentRequiredExactly(RawContent(req), UploadName(req.image), h);
  }

  /** With an empty list before it, the upload step adds nothing exactly when the upload was fine or absent. */
  lemma UploadErrorsEmptyIff(u: UploadField, dir: UploadDir, upload: UploadResult)
    ensures UploadErrors(u, dir, upload, []) == [] <==>
      !UploadFailed(u) && (UploadSucceeded(u) ==> DirReady(dir) && dir.writable && (upload.Rejected? ==> upload.errors == []))
  {
  }

  /** The error list is empty exactly when the submission is acceptable. */
  lemma CreateErrorsEmptyIff(req: AddRequest, h: Helpers, rows: Table, env: AddEnv)
    requires h.stripTags("") == "" && h.stripTags("0") == "0"
    ensures CreateErrors(req, h, rows, env) == [] <==> CreateAcceptable(req, h, rows, env)
  {
    CheckErrorsEmptyIff(req, h, rows, env);
    UploadErrorsEmptyIff(req.image, env.dir, env.upload);
  }

  /** An accepted submission whose slug lookup ran carries a slug no row holds. */
  lemma AcceptedSlugIsFree(req: AddRequest, h: Helpers, rows: Table, env: AddEnv)
    requires CreateErrors(req, h, rows, env) == [] && env.slugLookup == Executed
    ensures !EmptyStr(CreateSlug(req, h)) && !SlugTaken(rows, CreateSlug(req, h), None)
  {
    CheckErrorsEmpty(req, h, rows, env);
  }

  // ------------------------------------------------------------ the write

  const ExcerptLength: int := 155

  /** The excerpt to save: the submitted one, or one generated from the tag-stripped clean content. */
  function CreateExcerpt(req: AddRequest, h: Helpers): string {
    var excerpt := Field(req.excerpt);
    var clean := CleanContent(RawContent(req), h);
    if EmptyStr(excerpt) && !EmptyStr(clean) then h.generateExcerpt(h.stripTags(clean), ExcerptLength) else excerpt
  }

  /** The twelve bound columns of the INSERT. */
  function CreateColumns(req: AddRequest, h: Helpers, image: Option<string>): (c: Columns)
    ensures c.authorId == AuthorId(req.authorId) && c.title == Title(req) && c.slug == CreateSlug(req, h)
    ensures c.content == CleanContent(RawContent(req), h)
    ensures c.status == if req.status == Some(Published) then Published else Draft
    ensures c.categoryId == if EmptyOpt(req.categoryId) || IntVal(req.categoryId.value) == 0 then None
                            else Some(IntVal(req.categoryId.value))
    ensures c.featuredImage == image
    ensures c.metaTitle.None? <==> EmptyStr(Field(req.metaTitle))
    ensures c.metaTitle.Some? ==> c.metaTitle.value == Field(req.metaTitle)
    ensures c.metaDescription.None? <==> EmptyStr(Field(req.metaDescription))
    ensures c.metaDescription.Some? ==> c.metaDescription.value == Field(req.metaDescription)
    ensures c.metaKeywords.None? <==> EmptyStr(Field(req.metaKeywords))
    ensures c.metaKeywords.Some? ==> c.metaKeywords.value == Field(req.metaKeywords)
    ensures c.ogImageUrl.None? <==> EmptyStr(OgUrl(req))
    ensures c.ogImageUrl.Some? ==> c.ogImageUrl.value == OgUrl(req)
    ensures !EmptyStr(Field(req.excerpt)) ==> c.excerpt == Some(Field(req.excerpt))
    ensures EmptyStr(Field(req.excerpt)) && EmptyStr(CleanContent(RawContent(req), h)) ==> c.excerpt.None?
    ensures EmptyStr(Field(req.excerpt)) && !EmptyStr(CleanContent(RawContent(req), h)) ==>
              c.excerpt == NullIfEmpty(h.generateExcerpt(h.stripTags(CleanContent(RawContent(req), h)), ExcerptLength))
  {
    Columns(AuthorId(req.authorId), Title(req), CreateSlug(req, h), CleanContent(RawContent(req), h),
            CategoryToSave(CategoryInput(req.categoryId)), NormaliseStatus(req.status), image,
            NullIfEmpty(Field(req.metaTitle)), NullIfEmpty(Field(req.metaDescription)),
            NullIfEmpty(Field(req.metaKeywords)), NullIfEmpty(OgUrl(req)), NullIfEmpty(CreateExcerpt(req, h)))
  }

  const CreatePrepareFailed: string := "Database error preparing statement for adding post. Check error logs."

  function CreatedMessage(id: int): string {
    "Post created successfully! (ID: " + IntToString(id) + ")"
  }

  function CreateFailedMessage(errno: int): string {
    "Error creating post. Database code: " + IntToString(errno)
  }

  /** Adding a row whose slug no row holds keeps slugs unique. */
  lemma InsertKeepsSlugsUnique(rows: Table, id: int, p: Post)
    requires SlugsUnique(rows) && id !in rows && !SlugTaken(rows, p.slug, None)
    ensures SlugsUnique(rows[id := p])
  {
    var rows' := rows[id := p];
    forall a, b | a in rows' && b in rows' && a != b
      ensures rows'[a].slug != rows'[b].slug
    {
      if a == id {
        assert !(b in rows && rows[b].slug == p.slug && Some(b) != None);
      } else if b == id {
        assert !(a in rows && rows[a].slug == p.slug && Some(a) != None);
      }
    }
  }

  /** Adding a row with one of the two statuses keeps every status valid. */
  lemma InsertKeepsStatusesValid(rows: Table, id: int, p: Post)
    requires StatusesValid(rows) && (p.status == Published || p.status == Draft)
    ensures StatusesValid(rows[id := p])
  {
  }

  /**
   * The create handler. A run stopped by a gate or by validation errors leaves
   * the table as it was; an accepted one inserts exactly one row under the next
   * id, with `view_count` 0 and both timestamps set to now, and no other row
   * changes.
   */
  method CreatePost(db: PostsTable, req: AddRequest, h: Helpers, env: AddEnv) returns (resp: Response)
    requires db.Valid()
    modifies db
    ensures db.Valid()
    ensures AddGate(req, h, env).Some? ==>
      resp == AddGate(req, h, env).value && db.rows == old(db.rows) && db.nextId == old(db.nextId)
    ensures AddGate(req, h, env).None? && CreateErrors(req, h, old(db.rows), env) != [] ==>
      resp == Response(None, CreateErrors(req, h, old(db.rows), env), true, AddPostPage, [])
      && db.rows == old(db.rows) && db.nextId == old(db.nextId)
    ensures AddGate(req, h, env).None? && CreateErrors(req, h, old(db.rows), env) == [] ==>
      match env.insert
      case Executed =>
        var id := old(db.nextId);
        && id !in old(db.rows)
        && db.rows == old(db.rows)[id := NewRow(CreateColumns(req, h, UploadedImage(req.image, env.dir, env.upload)), env.now)]
        && resp == Response(Some(Flash(CreatedMessage(id), Success)), [], false, EditPostPage(id), [])
      case PrepareFailed =>
        db.rows == old(db.rows) && resp == ErrorFlash(CreatePrepareFailed, true, AddPostPage)
      case ExecuteFailed =>
        db.rows == old(db.rows) && resp == ErrorFlash(CreateFailedMessage(env.insertErrno), true, AddPostPage)
    ensures SlugsUnique(old(db.rows)) && env.slugLookup == Executed ==> SlugsUnique(db.rows)
    ensures StatusesValid(old(db.rows)) ==> StatusesValid(db.rows)
  {
    var gate := AddGate(req, h, env);
    if gate.Some? {
      return gate.value;
    }
    var errors, slug, image := ValidateCreate(req, h, db.rows, env);
    if errors != [] {
      return Response(None, errors, true, AddPostPage, []);
    }
    var columns := CreateColumns(req, h, image);
    match env.insert
    case PrepareFailed =>
      resp := ErrorFlash(CreatePrepareFailed, true, AddPostPage);
    case ExecuteFailed =>
      resp := ErrorFlash(CreateFailedMessage(env.insertErrno), true, AddPostPage);
    case Executed =>
      ghost var before := db.rows;
      var row := NewRow(columns, env.now);
      var id := db.Insert(row);
      if env.slugLookup == Executed && SlugsUnique(before) {
        AcceptedSlugIsFree(req, h, before, env);
        InsertKeepsSlugsUnique(before, id, row);
      }
      if StatusesValid(before) {
        InsertKeepsStatusesValid(before, id, row);
      }
      resp := Response(Some(Flash(CreatedMessage(id), Success)), [], false, EditPostPage(id), []);
  }
}
