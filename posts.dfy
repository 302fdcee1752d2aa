/**
 * The `posts` table and what the create and update handlers share: the row
 * record, the columns a write binds, the external helpers, the outcome of a
 * statement, the response a handler ends with, and the checks that both write
 * handlers run with identical code.
 */
module Posts {
  import opened Wrappers
  import opened Php

  /** Server time as the database stores it; only its order matters here. */
  type Timestamp = int

  const Published: string := "published"
  const Draft: string := "draft"

  /** One row of `posts`. Nullable columns are `Option`s. */
  datatype Post = Post(
    authorId: int,
    title: string,
    slug: string,
    content: string,
    categoryId: Option<int>,
    status: string,
    featuredImage: Option<string>,
    metaTitle: Option<string>,
    metaDescription: Option<string>,
    metaKeywords: Option<string>,
    ogImageUrl: Option<string>,
    excerpt: Option<string>,
    viewCount: int,
    createdAt: Timestamp,
    updatedAt: Timestamp)

  /** The `posts` table: row id to row. */
  type Table = map<int, Post>

  /** The twelve columns the INSERT and the UPDATE bind, in their bind order. */
  datatype Columns = Columns(
    authorId: int,
    title: string,
    slug: string,
    content: string,
    categoryId: Option<int>,
    status: string,
    featuredImage: Option<string>,
    metaTitle: Option<string>,
    metaDescription: Option<string>,
    metaKeywords: Option<string>,
    ogImageUrl: Option<string>,
    excerpt: Option<string>)

  function ColumnsOf(p: Post): Columns {
    Columns(p.authorId, p.title, p.slug, p.content, p.categoryId, p.status, p.featuredImage,
            p.metaTitle, p.metaDescription, p.metaKeywords, p.ogImageUrl, p.excerpt)
  }

  /** The row `INSERT ... VALUES (?, ..., 0, NOW(), NOW())` creates. */
  function NewRow(c: Columns, now: Timestamp): (p: Post)
    ensures ColumnsOf(p) == c
    ensures p.viewCount == 0 && p.createdAt == now && p.updatedAt == now
  {
    Post(c.authorId, c.title, c.slug, c.content, c.categoryId, c.status, c.featuredImage,
         c.metaTitle, c.metaDescription, c.metaKeywords, c.ogImageUrl, c.excerpt, 0, now, now)
  }

  /** The row `UPDATE posts SET <the twelve columns>, updated_at = NOW() WHERE id = ?` leaves. */
  function Rewrite(old_: Post, c: Columns, now: Timestamp): (p: Post)
    ensures ColumnsOf(p) == c
    ensures p.viewCount == old_.viewCount && p.createdAt == old_.createdAt && p.updatedAt == now
  {
    Post(c.authorId, c.title, c.slug, c.content, c.categoryId, c.status, c.featuredImage,
         c.metaTitle, c.metaDescription, c.metaKeywords, c.ogImageUrl, c.excerpt,
         old_.viewCount, old_.createdAt, now)
  }

  /**
   * The collaborators the handlers call but that are not part of this model:
   * the string helpers of includes/functions.php, the HTML purifier, and the
   * PHP builtins `esc_html`, `strip_tags` and `filter_var`.
   */
  datatype Helpers = Helpers(
    slugify: string -> string,
    generateExcerpt: (string, int) -> string,
    purifierLoaded: bool,
    purify: string -> string,
    escHtml: string -> string,
    stripTags: string -> string,
    isValidUrl: string -> bool,
    validateInt: string -> Option<int>,
    validateCsrf: string -> bool)

  /** How a prepared statement went. */
  datatype StmtResult = Executed | PrepareFailed | ExecuteFailed

  datatype FlashKind = Success | Error | Warning

  /** The one-time message a handler leaves in the session. */
  datatype Flash = Flash(message: string, kind: FlashKind)

  /** Where a handler redirects to (`index.php?admin_page=...`). */
  datatype AdminPage = LoginPage | PostsPage | AddPostPage | EditPostPage(id: int)

  /**
   * What a write handler leaves behind besides the table: the flash message,
   * the validation errors stored for redisplay, whether the submitted form is
   * kept for redisplay, the redirect, and the image files it unlinks.
   */
  datatype Response = Response(
    flash: Option<Flash>,
    formErrors: seq<string>,
    keepsFormData: bool,
    redirect: AdminPage,
    unlinked: seq<string>)

  function ErrorFlash(message: string, keep: bool, page: AdminPage): (r: Response)
    ensures r.flash == Some(Flash(message, Error)) && r.formErrors == [] && r.unlinked == []
  {
    Response(Some(Flash(message, Error)), [], keep, page, [])
  }

  /** `empty()` of a value that may be null. */
  predicate EmptyOpt(v: Option<string>) {
    v.None? || EmptyStr(v.value)
  }

  /** `trim($_POST[field] ?? '')`. */
  function Field(v: Option<string>): string {
    Trim(v.GetOr(""))
  }

  /** `empty($x) ? null : $x`, applied to every optional text column before a write. */
  function NullIfEmpty(s: string): (r: Option<string>)
    ensures r.None? <==> s == "" || s == "0"
    ensures r.Some? ==> r.value == s
  {
    if EmptyStr(s) then None else Some(s)
  }

  /** `!empty($_POST['post_category_id']) ? (int)$_POST['post_category_id'] : null`. */
  function CategoryInput(v: Option<string>): (r: Option<int>)
    ensures EmptyOpt(v) <==> r.None?
    ensures !EmptyOpt(v) ==> r == Some(IntVal(v.value))
  {
    if EmptyOpt(v) then None else Some(IntVal(v.value))
  }

  /**
   * The saved status: the submitted value when it is 'published' or 'draft',
   * 'draft' for anything else or for no value.
   */
  function NormaliseStatus(submitted: Option<string>): (r: string)
    ensures r == Published || r == Draft
    ensures submitted.Some? && (submitted.value == Published || submitted.value == Draft) ==> r == submitted.value
    ensures !(submitted.Some? && submitted.value == Published) ==> r == Draft
  {
    if submitted.Some? && (submitted.value == Published || submitted.value == Draft) then submitted.value else Draft
  }

  // ------------------------------------------------------------ shared checks

  const NotLoggedIn: string := "You must be logged in to perform this action."
  const AuthorRequired: string := "A valid author must be selected."
  const AuthorUnknown: string := "Selected author is invalid."
  const AuthorDbError: string := "Database error validating author."
  const OgUrlInvalid: string := "Open Graph Image URL is not a valid URL."
  const TitleRequired: string := "Post title is required."

  /**
   * `empty($in) || !filter_var($in, FILTER_VALIDATE_INT) || (int)$in <= 0`:
   * the author field does not even look like a positive integer.
   */
  predicate AuthorMalformed(input: Option<string>, h: Helpers) {
    EmptyOpt(input)
    || h.validateInt(input.value).None?
    || h.validateInt(input.value) == Some(0)
    || IntVal(input.value) <= 0
  }

  /** The author id the handlers bind and save. */
  function AuthorId(input: Option<string>): int {
    IntVal(input.GetOr(""))
  }

  /** The errors of the author check: a malformed id, then the `admin_users` lookup. */
  function AuthorErrors(input: Option<string>, h: Helpers, adminIds: set<int>, lookup: StmtResult): (r: seq<string>)
    ensures |r| <= 1
    ensures r == [] <==> !AuthorMalformed(input, h) && lookup == Executed && AuthorId(input) in adminIds
    ensures AuthorMalformed(input, h) ==> r == [AuthorRequired]
  {
    if AuthorMalformed(input, h) then [AuthorRequired]
    else if lookup == PrepareFailed then [AuthorDbError]
    // a failed execute leaves num_rows at 0, so the author reads as unknown
    else if lookup == ExecuteFailed || AuthorId(input) !in adminIds then [AuthorUnknown]
    else assert lookup == Executed; []
  }

  /** An Open Graph image URL, when given, must pass `FILTER_VALIDATE_URL`. */
  function OgUrlErrors(url: string, h: Helpers): (r: seq<string>)
    ensures r == [] <==> EmptyStr(url) || h.isValidUrl(url)
    ensures r != [] ==> r == [OgUrlInvalid]
  {
    if !EmptyStr(url) && !h.isValidUrl(url) then [OgUrlInvalid] else []
  }

  /** The trimmed title must not be `empty()` (so "0" is rejected too). */
  function TitleErrors(title: string): (r: seq<string>)
    ensures r == [] <==> title != "" && title != "0"
    ensures r != [] ==> r == [TitleRequired]
  {
    if EmptyStr(title) then [TitleRequired] else []
  }

  /** The slug from the slug field when it is not `empty()`, else from the title. */
  function ChooseSlug(slugInput: string, title: string, h: Helpers): (r: string)
    ensures EmptyStr(slugInput) ==> r == h.slugify(title)
    ensures !EmptyStr(slugInput) ==> r == h.slugify(slugInput)
  {
    if EmptyStr(slugInput) then h.slugify(title) else h.slugify(slugInput)
  }

  /** Some row other than `self` already holds `slug` (`SELECT id FROM posts WHERE slug = ? [AND id != ?]`). */
  predicate SlugTaken(rows: Table, slug: string, self: Option<int>) {
    exists id :: id in rows && rows[id].slug == slug && Some(id) != self
  }

  /** Every slug in the table belongs to one row only. */
  predicate SlugsUnique(rows: Table) {
    forall a, b :: a in rows && b in rows && a != b ==> rows[a].slug != rows[b].slug
  }

  /** Every row's status is one of the two the handlers write. */
  predicate StatusesValid(rows: Table) {
    forall id :: id in rows ==> rows[id].status == Published || rows[id].status == Draft
  }

  /** A row's own slug never counts against it once slugs are unique. */
  lemma OwnSlugIsFree(rows: Table, id: int)
    requires SlugsUnique(rows) && id in rows
    ensures !SlugTaken(rows, rows[id].slug, Some(id))
  {
  }

  /** The stored content: purified HTML, or escaped text when the purifier is missing. */
  function CleanContent(raw: string, h: Helpers): (r: string)
    ensures h.purifierLoaded ==> r == h.purify(raw)
    ensures !h.purifierLoaded ==> r == h.escHtml(raw)
  {
    if h.purifierLoaded then h.purify(raw) else h.escHtml(raw)
  }

  /** `$category_id === 0 ? null : $category_id`: a category id that casts to 0 is stored as null. */
  function CategoryToSave(category: Option<int>): (r: Option<int>)
    ensures r.Some? ==> r.value != 0 && r == category
    ensures category.Some? && category.value != 0 ==> r == category
  {
    if category == Some(0) then None else category
  }

  // PHP's UPLOAD_ERR_* codes.
  const UploadOk: int := 0
  const UploadIniSize: int := 1
  const UploadFormSize: int := 2
  const UploadPartial: int := 3
  const UploadNoFile: int := 4
  const UploadNoTmpDir: int := 6
  const UploadCantWrite: int := 7
  const UploadExtension: int := 8

  /** `$_FILES['featured_image']`: absent, or a name and an error code. */
  datatype UploadField = NoUploadField | Upload(name: string, code: int)

  /** What `handle_file_upload` returns: the stored file name or a list of errors. */
  datatype UploadResult = Stored(fileName: string) | Rejected(errors: seq<string>)

  predicate UploadSucceeded(u: UploadField) {
    u.Upload? && u.code == UploadOk
  }

  /** An upload was attempted and failed before reaching the handler. */
  predicate UploadFailed(u: UploadField) {
    u.Upload? && u.code != UploadOk && u.code != UploadNoFile
  }
}

/** The `posts` table as the handlers change it, one SQL statement per method. */
module Store {
  import opened Wrappers
  import opened Posts

  class PostsTable {
    var rows: Table
    /** The next AUTO_INCREMENT value. */
    var nextId: int

    ghost predicate Valid()
      reads this
    {
      1 <= nextId && forall id :: id in rows ==> 1 <= id < nextId
    }

    constructor (initial: Table, next: int)
      requires 1 <= next && forall id :: id in initial ==> 1 <= id < next
      ensures Valid() && rows == initial && nextId == next
    {
      rows := initial;
      nextId := next;
    }

    /** `INSERT INTO posts ...`: one new row under a fresh id. */
    method Insert(p: Post) returns (id: int)
      requires Valid()
      modifies this
      ensures Valid()
      ensures id == old(nextId) && id !in old(rows) && id >= 1
      ensures rows == old(rows)[id := p]
      ensures nextId == old(nextId) + 1
    {
      id := nextId;
      rows := rows[id := p];
      nextId := nextId + 1;
    }

    /** `UPDATE posts SET <columns>, updated_at = NOW() WHERE id = ?`: at most the row `id` changes. */
    method UpdateRow(id: int, c: Columns, now: Timestamp)
      requires Valid()
      modifies this`rows
      ensures Valid()
      ensures id in old(rows) ==> rows == old(rows)[id := Rewrite(old(rows)[id], c, now)]
      ensures id !in old(rows) ==> rows == old(rows)
    {
      if id in rows {
        rows := rows[id := Rewrite(rows[id], c, now)];
      }
    }

    /** `DELETE FROM posts WHERE id = ?`, returning `affected_rows`. */
    method DeleteById(id: int) returns (affected: nat)
      requires Valid()
      modifies this`rows
      ensures Valid()
      ensures rows == old(rows) - {id}
      ensures affected == if id in old(rows) then 1 else 0
    {
      affected := if id in rows then 1 else 0;
      rows := rows - {id};
    }

    /**
     * `UPDATE posts SET status = ? WHERE id IN (...)`, returning `affected_rows`,
     * which MySQL counts as the rows whose value actually changed.
     */
    method SetStatusWhereIdIn(ids: set<int>, status: string) returns (affected: nat)
      requires Valid()
      modifies this`rows
      ensures Valid()
      ensures rows.Keys == old(rows).Keys
      ensures forall id :: id in rows ==>
        rows[id] == if id in ids then old(rows)[id].(status := status) else old(rows)[id]
      ensures affected == |set id | id in ids && id in old(rows) && old(rows)[id].status != status|
    {
      affected := |set id | id in ids && id in rows && rows[id].status != status|;
      rows := map id | id in rows :: if id in ids then rows[id].(status := status) else rows[id];
    }

    /** `DELETE FROM posts WHERE id IN (...)`, returning `affected_rows`. */
    method DeleteWhereIdIn(ids: set<int>) returns (affected: nat)
      requires Valid()
      modifies this`rows
      ensures Valid()
      ensures rows == old(rows) - ids
      ensures affected == |ids * old(rows).Keys|
    {
      affected := |ids * rows.Keys|;
      rows := rows - ids;
    }
  }
}
