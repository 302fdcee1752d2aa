/**
 * The bulk handler of the post list: gates, the `intval` sanitising of the
 * selected ids, the `IN (?,?,...)` placeholder list and its bind types, one
 * status UPDATE or one DELETE over the selection, and the counters that pick
 * the flash message.
 */
module BulkActions {
  import opened Wrappers
  import opened Php
  import opened Posts
  import opened Store

  /** The parts of `$_SERVER` and `$_POST` the handler reads; `post_ids` may be any request value. */
  datatype BulkRequest = BulkRequest(
    requestMethod: string,
    csrfToken: Option<string>,
    bulkAction: Option<string>,
    postIds: Option<Value>)

  /** Whether `check_auth.php` lets the user through, and how the one statement goes. */
  datatype BulkEnv = BulkEnv(authorised: bool, statement: StmtResult)

  // ------------------------------------------------------------ the selection

  /** `array_filter(array_map('intval', $post_ids), fn($id) => $id > 0)`, in order. */
  function SanitizeIds(items: seq<Value>): (r: seq<int>)
    ensures |r| <= |items|
    ensures forall k :: 0 <= k < |r| ==> r[k] > 0
    ensures forall x :: x in r <==> x > 0 && exists k :: 0 <= k < |items| && ToInt(items[k]) == x
    decreases |items|
  {
    if items == [] then []
    else
      var rest := SanitizeIds(items[1..]);
      assert forall k :: 0 <= k < |items| - 1 ==> items[1..][k] == items[k + 1];
      var n := ToInt(items[0]);
      if n > 0 then [n] + rest else rest
  }

  /** Sanitising keeps every item that is already a positive id, and only those, when all are ids. */
  lemma {:induction false} SanitizeKeepsPositiveIds(ids: seq<int>)
    requires forall k :: 0 <= k < |ids| ==> ids[k] > 0
    ensures SanitizeIds(seq(|ids|, k requires 0 <= k < |ids| => Int(ids[k]))) == ids
    decreases |ids|
  {
    if ids != [] {
      var items := seq(|ids|, k requires 0 <= k < |ids| => Int(ids[k]));
      SanitizeKeepsPositiveIds(ids[1..]);
      assert items[1..] == seq(|ids[1..]|, k requires 0 <= k < |ids[1..]| => Int(ids[1..][k]));
      assert ids == [ids[0]] + ids[1..];
    }
  }

  /**
   * Sanitising one more item appends that item's `intval` when it is
   * positive and nothing otherwise. With the empty list giving the empty
   * list, this fixes the whole result: the kept ids stay in item order and
   * a repeated id is kept as often as it was sent, as `array_filter` keeps
   * them, so `count()` sizes the placeholder list by the items kept.
   */
  lemma {:induction false} SanitizeSnoc(items: seq<Value>, v: Value)
    ensures SanitizeIds(items + [v]) == SanitizeIds(items) + (if ToInt(v) > 0 then [ToInt(v)] else [])
    decreases |items|
  {
    if items == [] {
      assert [v][1..] == [];
    } else {
      assert (items + [v])[1..] == items[1..] + [v];
      SanitizeSnoc(items[1..], v);
    }
  }

  /** The selected ids as the WHERE clause sees them: duplicates match a row once. */
  function IdSet(ids: seq<int>): (s: set<int>)
    ensures forall x :: x in s <==> x in ids
  {
    set x | x in ids
  }

  /** `implode(',', array_fill(0, $n, '?'))`. */
  function Placeholders(n: nat): (r: string)
    ensures n == 0 ==> r == ""
    ensures n > 0 ==> |r| == 2 * n - 1
    ensures forall k :: 0 <= k < |r| ==> r[k] == (if k % 2 == 0 then '?' else ',')
  {
    if n == 0 then "" else if n == 1 then "?" else Placeholders(n - 1) + ",?"
  }

  /** `str_repeat('i', $n)`. */
  function BindTypes(n: nat): (r: string)
    ensures |r| == n
    ensures forall k :: 0 <= k < n ==> r[k] == 'i'
  {
    if n == 0 then "" else BindTypes(n - 1) + "i"
  }

  /** The placeholder list has one `?` per bound id, so the statement's arity matches its types. */
  lemma {:induction false} PlaceholdersMatchTypes(n: nat)
    ensures Count(Placeholders(n), '?') == n == |BindTypes(n)|
  {
    if n == 1 {
      assert Count("?", '?') == Count("", '?') + 1;
    } else if n > 1 {
      PlaceholdersMatchTypes(n - 1);
      CountAppend(Placeholders(n - 1), ",?", '?');
      assert Count(",?", '?') == 1 by {
        assert ",?"[..1] == ",";
        assert Count(",", '?') == Count("", '?');
      }
    }
  }

  // ------------------------------------------------------------ gates

  const Publish: string := "publish"
  const DraftAction: string := "draft"
  const DeleteAction: string := "delete"
  const BulkWrongMethod: string := "Invalid request method."
  const BulkCsrfInvalid: string := "CSRF token validation failed. Action aborted."
  const NoAction: string := "No bulk action selected."
  const NoPosts: string := "No posts selected for the bulk action."
  const NoValidPosts: string := "No valid posts selected."

  /** `$_POST['bulk_action'] ?? ''`. */
  function Action(req: BulkRequest): string {
    req.bulkAction.GetOr("")
  }

  /** The submitted ids, when `post_ids` is a non-empty array. */
  function SubmittedIds(req: BulkRequest): seq<Value> {
    if req.postIds.Some? && req.postIds.value.Arr? then req.postIds.value.items else []
  }

  /** The checks that end the run before the table is touched; `None` for no flash at all. */
  function BulkGate(req: BulkRequest, h: Helpers, env: BulkEnv): (r: Option<Option<Flash>>)
    ensures r.None? <==> env.authorised && req.requestMethod == "POST" && req.csrfToken.Some?
                         && h.validateCsrf(req.csrfToken.value) && !EmptyStr(Action(req))
                         && SanitizeIds(SubmittedIds(req)) != []
    ensures r.Some? && r.value.Some? ==> r.value.value.kind == Error
  {
    if !env.authorised then Some(None)
    else if req.requestMethod != "POST" then Some(Some(Flash(BulkWrongMethod, Error)))
    else if req.csrfToken.None? || !h.validateCsrf(req.csrfToken.value) then Some(Some(Flash(BulkCsrfInvalid, Error)))
    else if EmptyStr(Action(req)) then Some(Some(Flash(NoAction, Error)))
    else if req.postIds.None? || IsEmpty(req.postIds.value) || !req.postIds.value.Arr? then Some(Some(Flash(NoPosts, Error)))
    else if SanitizeIds(SubmittedIds(req)) == [] then Some(Some(Flash(NoValidPosts, Error)))
    else None
  }

  // ------------------------------------------------------------ messages

  /** `($bulk_action === 'publish') ? 'published' : 'draft'`. */
  function NewStatus(action: string): (s: string)
    ensures s == Published || s == Draft
    ensures s == Published <==> action == Publish
  {
    if action == Publish then Published else Draft
  }

  /** The message the switch sets for an action and its success count. */
  function ActionFlash(action: string, successCount: int, h: Helpers): (f: Flash)
    ensures f.kind == Success <==> (action == Publish || action == DraftAction || action == DeleteAction) && successCount > 0
    ensures f.kind != Warning
  {
    if action == Publish || action == DraftAction then
      if successCount > 0 then
        Flash(IntToString(successCount) + " post(s) status updated to '" + NewStatus(action) + "'.", Success)
      else Flash("Could not update status for selected posts. Check error logs.", Error)
    else if action == DeleteAction then
      if successCount > 0 then Flash(IntToString(successCount) + " post(s) successfully deleted.", Success)
      else Flash("Could not delete selected posts. Check error logs.", Error)
    else Flash("Invalid bulk action specified: " + h.escHtml(action), Error)
  }

  function PartialMessage(successCount: int, errorCount: int): string {
    IntToString(successCount) + " post(s) processed. " + IntToString(errorCount) + " post(s) failed. Check error logs."
  }

  function AllFailedMessage(action: string): string {
    "All selected posts failed to process for action '" + action + "'. Check error logs."
  }

  /** The flash after the switch: the counters can override the switch's message. */
  function FinalFlash(action: string, successCount: int, errorCount: int, h: Helpers): Flash {
    if errorCount > 0 && successCount > 0 then Flash(PartialMessage(successCount, errorCount), Warning)
    else if errorCount > 0 && successCount == 0 then Flash(AllFailedMessage(action), Error)
    else ActionFlash(action, successCount, h)
  }

  /** With counters that are never both positive, the flash is a success exactly when something was processed. */
  lemma FinalFlashKinds(action: string, successCount: nat, errorCount: nat, h: Helpers)
    requires !(successCount > 0 && errorCount > 0)
    requires successCount > 0 ==> action == Publish || action == DraftAction || action == DeleteAction
    ensures FinalFlash(action, successCount, errorCount, h).kind != Warning
    ensures FinalFlash(action, successCount, errorCount, h).kind == Success <==> successCount > 0
  {
  }

  // ------------------------------------------------------------ the handler

  /** The rows a status update touches: exactly the selected ones that exist, others as they were. */
  predicate StatusSetOn(before: Table, after: Table, ids: set<int>, status: string) {
    && after.Keys == before.Keys
    && forall id :: id in after ==> after[id] == if id in ids then before[id].(status := status) else before[id]
  }

  /** The number of selected rows whose status a status update actually changes. */
  function ChangedCount(rows: Table, ids: set<int>, status: string): nat {
    |set id | id in ids && id in rows && rows[id].status != status|
  }

  /**
   * What the switch's statement does to the table and the counters:
   * publish or draft sets the status of exactly the selected existing rows
   * and counts those it changed; delete removes exactly the selected rows and
   * counts them; a failed statement changes nothing and counts every selected
   * id as failed; any other action changes nothing and counts nothing.
   */
  predicate ActionApplied(before: Table, after: Table, action: string, ids: seq<int>, statement: StmtResult,
                          successCount: nat, errorCount: nat)
  {
    && ((action == Publish || action == DraftAction) && statement == Executed ==>
          && StatusSetOn(before, after, IdSet(ids), NewStatus(action))
          && successCount == ChangedCount(before, IdSet(ids), NewStatus(action)) && errorCount == 0)
    && (action == DeleteAction && statement == Executed ==>
          after == before - IdSet(ids) && successCount == |IdSet(ids) * before.Keys| && errorCount == 0)
    && ((action == Publish || action == DraftAction || action == DeleteAction) && statement != Executed ==>
          after == before && successCount == 0 && errorCount == |ids|)
    && (action != Publish && action != DraftAction && action != DeleteAction ==>
          after == before && successCount == 0 && errorCount == 0)
  }

  /** At most one of the two counters is positive after any statement. */
  lemma CountersExclusive(before: Table, after: Table, action: string, ids: seq<int>, statement: StmtResult,
                          successCount: nat, errorCount: nat)
    requires ActionApplied(before, after, action, ids, statement, successCount, errorCount)
    ensures !(successCount > 0 && errorCount > 0)
    ensures successCount > 0 ==> action == Publish || action == DraftAction || action == DeleteAction
  {
  }

  /**
   * The statement the switch runs for an action: publish or draft sets the
   * status of exactly the selected existing rows and counts those it changed;
   * delete removes exactly the selected rows and counts them; a failed
   * statement changes nothing and counts every selected id as failed; any
   * other action changes nothing.
   */
  method RunAction(db: PostsTable, action: string, ids: seq<int>, statement: StmtResult)
    returns (successCount: nat, errorCount: nat)
    requires db.Valid()
    modifies db`rows
    ensures db.Valid()
    ensures ActionApplied(old(db.rows), db.rows, action, ids, statement, successCount, errorCount)
    ensures StatusesValid(old(db.rows)) ==> StatusesValid(db.rows)
    ensures SlugsUnique(old(db.rows)) ==> SlugsUnique(db.rows)
  {
    var placeholders := Placeholders(|ids|);
    var types := BindTypes(|ids|);
    PlaceholdersMatchTypes(|ids|);
    successCount, errorCount := 0, 0;
    if action == Publish || action == DraftAction {
      var status := NewStatus(action);
      if statement == Executed {
        successCount := db.SetStatusWhereIdIn(IdSet(ids), status);
      } else {
        errorCount := |ids|;
      }
    } else if action == DeleteAction {
      if statement == Executed {
        successCount := db.DeleteWhereIdIn(IdSet(ids));
      } else {
        errorCount := |ids|;
      }
    }
  }

  /**
   * The bulk handler: the gates, then the statement of `RunAction`, then the
   * flash. The two counters are never both positive, so the partial-success
   * warning is never shown, and the flash is a success exactly when some row
   * was processed.
   */
  method BulkUpdate(db: PostsTable, req: BulkRequest, h: Helpers, env: BulkEnv)
    returns (flash: Option<Flash>, successCount: nat, errorCount: nat)
    requires db.Valid()
    modifies db`rows
    ensures db.Valid()
    ensures BulkGate(req, h, env).Some? ==>
      flash == BulkGate(req, h, env).value && successCount == 0 && errorCount == 0 && db.rows == old(db.rows)
    ensures BulkGate(req, h, env).None? ==>
      var action := Action(req);
      var ids := SanitizeIds(SubmittedIds(req));
      && flash == Some(FinalFlash(action, successCount, errorCount, h))
      && ActionApplied(old(db.rows), db.rows, action, ids, env.statement, successCount, errorCount)
    ensures !(successCount > 0 && errorCount > 0)
    ensures flash.Some? ==> flash.value.kind != Warning
    ensures flash.Some? && flash.value.kind == Success <==> successCount > 0
    ensures StatusesValid(old(db.rows)) ==> StatusesValid(db.rows)
    ensures SlugsUnique(old(db.rows)) ==> SlugsUnique(db.rows)
  {
    var gate := BulkGate(req, h, env);
    if gate.Some? {
      return gate.value, 0, 0;
    }
    var action := Action(req);
    successCount, errorCount := RunAction(db, action, SanitizeIds(SubmittedIds(req)), env.statement);
    var message := ActionFlash(action, successCount, h);
    if errorCount > 0 && successCount > 0 {
      message := Flash(PartialMessage(successCount, errorCount), Warning);
    } else if errorCount > 0 && successCount == 0 {
      message := Flash(AllFailedMessage(action), Error);
    }
    flash := Some(message);
    CountersExclusive(old(db.rows), db.rows, action, SanitizeIds(SubmittedIds(req)), env.statement, successCount, errorCount);
    FinalFlashKinds(action, successCount, errorCount, h);
  }

  /**
   * Publishing posts that are all published already changes no row, so the
   * handler reports the error message although nothing went wrong.
   */
  lemma RepublishingReportsError(rows: Table, ids: set<int>, h: Helpers)
    requires forall id :: id in ids && id in rows ==> rows[id].status == Published
    ensures ChangedCount(rows, ids, NewStatus(Publish)) == 0
    ensures FinalFlash(Publish, ChangedCount(rows, ids, NewStatus(Publish)), 0, h).kind == Error
  {
    var changed := set id | id in ids && id in rows && rows[id].status != Published;
    assert forall id :: id !in changed;
    assert changed == {};
  }

  /** `intval("999")`, the id of `DeleteSelectionExample` that names no row. */
  lemma NineNineNine()
    ensures IntVal("999") == 999
  {
    assert IntToString(999) == "999" by {
      assert NatToString(99) == "99";
    }
    IntValOfIntToString(999);
  }

  /** Deleting the selection 1, 2, 999 from a table holding rows 1 and 2 removes both and counts 2. */
  lemma DeleteSelectionExample(rows: Table)
    requires rows.Keys == {1, 2}
    ensures SanitizeIds([Str("1"), Str("2"), Str("999")]) == [1, 2, 999]
    ensures rows - IdSet([1, 2, 999]) == map[]
    ensures |IdSet([1, 2, 999]) * rows.Keys| == 2
  {
    assert IntVal("1") == 1 && IntVal("2") == 2;
    NineNineNine();
    assert IdSet([1, 2, 999]) * rows.Keys == {1, 2};
  }
}
