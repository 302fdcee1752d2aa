/**
 * The single-post delete handler: gates, a lookup of the row's image and
 * title for the message, one DELETE by id, the image file unlinked only after
 * a row was actually deleted, and the JSON reply sent to AJAX callers.
 */
module DeletePost {
  import opened Wrappers
  import opened Php
  import opened Posts
  import opened Store

  /** The parts of `$_SERVER` and `$_POST` the handler reads. */
  datatype DeleteRequest = DeleteRequest(
    requestMethod: string,
    requestedWith: Option<string>,
    csrfToken: Option<string>,
    postId: Option<string>)

  /**
   * Everything outside the request: whether `check_auth.php` lets the user
   * through, how each statement goes, and the statement and connection error texts.
   */
  datatype DeleteEnv = DeleteEnv(
    authorised: bool,
    lookup: StmtResult,
    delete: StmtResult,
    stmtError: string,
    connError: string)

  /** The body `send_json_response` encodes: `{success, message, data}`, `data` being `{deleted_id}` or null. */
  datatype JsonReply = JsonReply(success: bool, message: string, deletedId: Option<int>)

  /**
   * What the run leaves behind: no flash when `check_auth.php` turned the user
   * away, otherwise the flash message; the JSON reply for AJAX callers (the
   * others are redirected to the post list); the image file unlinked.
   */
  datatype DeleteResponse = DeleteResponse(flash: Option<Flash>, json: Option<JsonReply>, unlinked: seq<string>)

  const XmlHttpRequest: string := "xmlhttprequest"
  const DeleteWrongMethod: string := "Invalid request method for delete operation."
  const DeleteCsrfInvalid: string := "Invalid security token. Please try again."
  const MissingPostId: string := "Invalid request: Missing post ID."
  const DeletePrepareFailed: string := "Database error. Could not prepare statement for deletion."

  /** `!empty($_SERVER['HTTP_X_REQUESTED_WITH']) && strtolower(...) == 'xmlhttprequest'`. */
  predicate IsAjax(req: DeleteRequest) {
    !EmptyOpt(req.requestedWith) && ToLower(req.requestedWith.value) == XmlHttpRequest
  }

  /**
   * The header is recognised whatever the case of its letters: the request is
   * an AJAX one exactly when the header is "XMLHttpRequest" in some mix of
   * upper and lower case.
   */
  lemma AjaxHeaderIgnoresCase(req: DeleteRequest)
    ensures IsAjax(req) <==>
      && req.requestedWith.Some?
      && |req.requestedWith.value| == |XmlHttpRequest|
      && forall k :: 0 <= k < |XmlHttpRequest| ==> LowerChar(req.requestedWith.value[k]) == XmlHttpRequest[k]
  {
    if req.requestedWith.Some? {
      var v := req.requestedWith.value;
      if |v| == |XmlHttpRequest| && forall k :: 0 <= k < |XmlHttpRequest| ==> LowerChar(v[k]) == XmlHttpRequest[k] {
        assert ToLower(v) == XmlHttpRequest;
        EmptyStrCases(v);
      }
    }
  }

  /** `(int)$_POST['post_id']`, 0 when the field is missing. */
  function DeleteId(req: DeleteRequest): int {
    if req.postId.Some? then IntVal(req.postId.value) else 0
  }

  /** An error outcome: the flash, and the same text as a failed JSON reply for AJAX callers. */
  function Failure(req: DeleteRequest, flashText: string, jsonText: string): (r: DeleteResponse)
    ensures r.flash == Some(Flash(flashText, Error)) && r.unlinked == []
    ensures r.json.Some? <==> IsAjax(req)
    ensures r.json.Some? ==> !r.json.value.success && r.json.value.deletedId.None?
  {
    DeleteResponse(Some(Flash(flashText, Error)), if IsAjax(req) then Some(JsonReply(false, jsonText, None)) else None, [])
  }

  /** The checks that end the run before the database is touched. */
  function DeleteGate(req: DeleteRequest, h: Helpers, env: DeleteEnv): (r: Option<DeleteResponse>)
    ensures r.None? <==> env.authorised && req.requestMethod == "POST" && req.csrfToken.Some?
                         && h.validateCsrf(req.csrfToken.value) && DeleteId(req) != 0
    ensures r.Some? ==> r.value.unlinked == [] && (r.value.json.Some? ==> !r.value.json.value.success)
  {
    if !env.authorised then Some(DeleteResponse(None, None, []))
    else if req.requestMethod != "POST" then Some(Failure(req, DeleteWrongMethod, DeleteWrongMethod))
    else if req.csrfToken.None? || !h.validateCsrf(req.csrfToken.value) then Some(Failure(req, DeleteCsrfInvalid, DeleteCsrfInvalid))
    else if req.postId.None? || DeleteId(req) == 0 then Some(Failure(req, MissingPostId, MissingPostId))
    else None
  }

  /** The image and title read before the delete; "Post #id" and no image when the row was not read. */
  function Lookup(rows: Table, id: int, lookup: StmtResult): (Option<string>, string) {
    if lookup == Executed && id in rows then (rows[id].featuredImage, rows[id].title)
    else (None, "Post #" + IntToString(id))
  }

  function DeletedMessage(title: string, id: int, h: Helpers): string {
    "Post \"" + h.escHtml(title) + "\" (ID: " + IntToString(id) + ") deleted successfully."
  }

  function NotFoundMessage(id: int): string {
    "Post not found or already deleted (ID: " + IntToString(id) + ")."
  }

  function DeleteFailedMessage(id: int): string {
    "Error deleting post (ID: " + IntToString(id) + "). Database error."
  }

  /**
   * The delete handler. Past the gates, an executed DELETE removes row
   * `post_id` and nothing else; the reply is a success exactly when that row
   * existed, and only then is its non-empty image file unlinked. Running it
   * again for the same id finds nothing, changes nothing and reports "not found".
   */
  method DeleteSinglePost(db: PostsTable, req: DeleteRequest, h: Helpers, env: DeleteEnv)
    returns (resp: DeleteResponse)
    requires db.Valid()
    modifies db`rows
    ensures db.Valid()
    ensures DeleteGate(req, h, env).Some? ==> resp == DeleteGate(req, h, env).value && db.rows == old(db.rows)
    ensures DeleteGate(req, h, env).None? ==>
      var id := DeleteId(req);
      var (image, title) := Lookup(old(db.rows), id, env.lookup);
      match env.delete
      case Executed =>
        && db.rows == old(db.rows) - {id}
        && id !in db.rows
        && (id in old(db.rows) ==>
              var message := DeletedMessage(title, id, h);
              && resp.flash == Some(Flash(message, Success))
              && resp.json == (if IsAjax(req) then Some(JsonReply(true, message, Some(id))) else None)
              && resp.unlinked == (if EmptyOpt(image) then [] else [image.value]))
        && (id !in old(db.rows) ==> resp == Failure(req, NotFoundMessage(id), NotFoundMessage(id)))
      case ExecuteFailed =>
        && db.rows == old(db.rows)
        && resp == Failure(req, DeleteFailedMessage(id), DeleteFailedMessage(id) + " " + env.stmtError)
      case PrepareFailed =>
        && db.rows == old(db.rows)
        && resp == Failure(req, DeletePrepareFailed, DeletePrepareFailed + " " + env.connError)
    ensures resp.json.Some? ==> (resp.json.value.deletedId.Some? <==> resp.json.value.success)
    ensures resp.unlinked != [] ==> |old(db.rows)| == |db.rows| + 1
    ensures SlugsUnique(old(db.rows)) ==> SlugsUnique(db.rows)
  {
    var gate := DeleteGate(req, h, env);
    if gate.Some? {
      return gate.value;
    }
    var id := DeleteId(req);
    var (image, title) := Lookup(db.rows, id, env.lookup);
    match env.delete
    case PrepareFailed =>
      resp := Failure(req, DeletePrepareFailed, DeletePrepareFailed + " " + env.connError);
    case ExecuteFailed =>
      resp := Failure(req, DeleteFailedMessage(id), DeleteFailedMessage(id) + " " + env.stmtError);
    case Executed =>
      ghost var before := db.rows;
      var affected := db.DeleteById(id);
      RemovingOneRow(before, id);
      if affected > 0 {
        var unlinked := [];
        if !EmptyOpt(image) {
          unlinked := [image.value];
        }
        var message := DeletedMessage(title, id, h);
        resp := DeleteResponse(Some(Flash(message, Success)),
                               if IsAjax(req) then Some(JsonReply(true, message, Some(id))) else None,
                               unlinked);
      } else {
        resp := Failure(req, NotFoundMessage(id), NotFoundMessage(id));
      }
  }

  /** The row count drops by one exactly when the id was present. */
  lemma RemovingOneRow(rows: Table, id: int)
    ensures |rows - {id}| == if id in rows then |rows| - 1 else |rows|
  {
    if id in rows {
      assert (rows - {id}).Keys + {id} == rows.Keys;
    } else {
      assert rows - {id} == rows;
    }
  }
}
