# Post management of the admin area, modelled in Dafny

This project models the post-management handlers of the site's admin area. The `posts` table is a map from id to a `Post` record, held in a `PostsTable` object that each handler changes in place. The handlers modelled are:

- **List page** (`ManagePosts`). `get_filtered_posts` turns the optional filters into an AND-joined WHERE fragment. It builds the bind parameters and the type string in step, so the two always line up. It runs a count query and a page query, then computes the offset and the page count. The page's request parsing, its pagination-link conditions and the request its Previous and Next links send are modelled too. A reference semantics says which posts match the filters, including what `LIKE '%term%'` means. The built query is proved to select exactly those posts. The page returned is proved to be a slice of the matching posts, newest first.
- **Create** (`AddPost`) and **update** (`EditPost`).
  - Each runs its request gates, then collects one ordered list of validation errors; no check stops the ones after it.
  - Each decides the slug and normalises the status.
  - An update also decides the featured image: keep, remove or replace. It decides which old file is unlinked too.
  - Each handler then changes nothing, or performs exactly one INSERT or one UPDATE. The contracts state the whole new table.
- **Single delete** (`DeletePost`). Gates run first, then a lookup of the title and image. One `DELETE ... WHERE id = ?` follows, with three outcomes: success, not found, or a database error. The image file is unlinked only after a row was really deleted. AJAX callers get a JSON reply.
- **Bulk actions** (`BulkActions`). Ids are sanitised with `intval` and only those above 0 are kept. The handler builds the `IN (?,?,...)` placeholder list and its types. One status UPDATE or one DELETE runs over the selection, and two counters choose the flash message.

Module layout:
- `Php` holds the PHP semantics the rules depend on: `empty()`, `trim()`, `(int)`/`intval()`, int-to-string, byte-counting `strlen()` and `strtolower()`.
- `Posts` holds the row, the shared checks and the response values.
- `Store` holds the table class, one method per SQL statement.
- Each handler has its own module.

External helpers are fields of a `Helpers` value whose behaviour is left open: `slugify`, `generate_excerpt`, the HTML purifier, `esc_html`, `strip_tags`, URL/INT validation and `validate_csrf_token`. How each statement goes (executed, prepare failed, execute failed) is a parameter. So is what `handle_file_upload` returns, along with the upload directory's state, the session login and the clock. Sessions, redirects, JSON output and file removal are returned as values: the flash, the kept form, the redirect target, the reply, and the list of unlinked file names.

Behaviours of the source that the model reproduces as written:

- **A rejected edit still unlinks the old image.** The update handler deletes the old image file during the image step, before it looks at the error list. So a rejected edit can leave the row naming a file that is gone. `EditPost.RejectedEditStillUnlinks` shows this.
- **Republishing reports an error.** Publishing posts that are already published changes no row. The affected-row count is therefore 0, and the handler shows its error message (`BulkActions.RepublishingReportsError`).
- **A failed slug lookup counts as "no conflict".** When the slug lookup's execute fails, both the create and the update handler treat the slug as free.

## Model

| member | source | states |
|---|---|---|
| Php.EmptyStrCases | admin/actions/add_post_process.php:193-195 | PHP `empty()` of a string holds exactly for "" and "0" |
| Php.Trim | admin/actions/add_post_process.php:153-162 | `trim()` yields the piece of the input left after cutting only trim characters from both sides, with no trim character at either end |
| Php.TrimIdempotent | admin/actions/edit_post_process.php:147-164 | trimming an already trimmed field changes nothing |
| Php.IntValOfIntToString | admin/actions/delete_post.php:83-88 | reading back the decimal text PHP prints for an int gives the same int |
| Php.ByteLength | admin/actions/edit_post_process.php:203-208 | `strlen` counts UTF-8 bytes: at least one and at most four per character |
| Php.ToLower | admin/actions/delete_post.php:42 | `strtolower` keeps the length and lowers each ASCII letter, nothing else |
| Posts.NewRow | admin/actions/add_post_process.php:284-285 | an inserted row carries exactly the bound columns, `view_count` 0 and both timestamps set to now |
| Posts.Rewrite | admin/actions/edit_post_process.php:290-304 | an updated row carries the new columns and the new `updated_at`, and keeps `view_count` and `created_at` |
| Posts.NullIfEmpty | admin/actions/add_post_process.php:276-280 | an optional text column is null exactly when `empty()` holds, else the value itself |
| Posts.CategoryInput | admin/actions/add_post_process.php:156 | the category is null exactly when the field is `empty()`; otherwise it is the field's `(int)` cast |
| Posts.NormaliseStatus | admin/actions/add_post_process.php:157 | the saved status is 'published' or 'draft': the submitted value when it is one of them, 'draft' otherwise |
| Posts.AuthorErrors | admin/actions/add_post_process.php:169-185 | at most one author error; none exactly when the id is well formed, the lookup ran and the id is an admin's |
| Posts.OgUrlErrors | admin/actions/add_post_process.php:188-190 | the OG URL error appears exactly when the URL is non-empty and invalid |
| Posts.TitleErrors | admin/actions/add_post_process.php:193-195 | the title error appears exactly when the trimmed title is `empty()` |
| Posts.ChooseSlug | admin/actions/add_post_process.php:206-210 | the slug is slugify of the submitted slug, or of the title when none was submitted |
| Posts.OwnSlugIsFree | admin/actions/edit_post_process.php:218-227 | with unique slugs, a row's own slug is never taken by another row |
| Posts.CleanContent | admin/actions/add_post_process.php:270 | stored content is purified, or HTML-escaped when the purifier is missing |
| Posts.CategoryToSave | admin/actions/add_post_process.php:275 | a category id of 0 is stored as null; any other id as given |
| Store.PostsTable.Insert | admin/actions/add_post_process.php:284-305 | the table gains exactly one row under the next id; nothing else changes |
| Store.PostsTable.UpdateRow | admin/actions/edit_post_process.php:290-334 | only row `id` is rewritten, and only when it exists |
| Store.PostsTable.DeleteById | admin/actions/delete_post.php:103-107 | only row `id` is removed; affected rows is 1 when it existed, else 0 |
| Store.PostsTable.SetStatusWhereIdIn | admin/actions/bulk_post_actions.php:85-90 | exactly the selected existing rows get the new status; affected counts the rows whose status changed |
| Store.PostsTable.DeleteWhereIdIn | admin/actions/bulk_post_actions.php:110-115 | exactly the selected rows are removed; affected counts the selected ids that existed |
| ManagePosts.ClauseParams | admin/pages/manage_posts.php:52-90 | each clause binds two parameters for search and one for every other filter |
| ManagePosts.ClausePlaceholders | admin/pages/manage_posts.php:52-90 | each clause's SQL holds exactly as many `?` as the parameters it binds |
| ManagePosts.SearchPlaceholders | admin/pages/manage_posts.php:53-56 | the search clause holds two `?`, one for the title and one for the content |
| ManagePosts.JoinAndPlaceholders | admin/pages/manage_posts.php:92-95 | clauses joined by AND hold one `?` per parameter of the whole clause list |
| ManagePosts.WherePlaceholders | admin/pages/manage_posts.php:92-95 | the WHERE fragment's `?` count equals the parameter count and the type-string length, for every clause list |
| ManagePosts.OrderLimitPlaceholders | admin/pages/manage_posts.php:117-123 | `LIMIT ? OFFSET ?` holds two `?` |
| ManagePosts.PageQueryPlaceholders | admin/pages/manage_posts.php:117-123 | the page query's WHERE plus its LIMIT/OFFSET tail holds one `?` per filter parameter plus two, for per_page and the offset |
| ManagePosts.TypesFor | admin/pages/manage_posts.php:52-90 | the type string has one letter per parameter: `s` for strings, `i` for ints |
| ManagePosts.ParamsForAppend | admin/pages/manage_posts.php:52-90 | adding a clause appends exactly its own parameters |
| ManagePosts.WhereSql | admin/pages/manage_posts.php:92-95 | the WHERE fragment is "" exactly when there are no clauses |
| ManagePosts.AddSet | admin/pages/manage_posts.php:52-90 | an active filter appends its clause, parameters and types and keeps them aligned |
| ManagePosts.SkipUnset | admin/pages/manage_posts.php:52-90 | an inactive filter adds nothing |
| ManagePosts.AddSearchFilter | admin/pages/manage_posts.php:52-57 | the search step keeps clauses, parameters and types equal to the reference for the filters so far |
| ManagePosts.AddStatusFilter | admin/pages/manage_posts.php:60-64 | the status step does the same |
| ManagePosts.AddCategoryFilter | admin/pages/manage_posts.php:67-71 | the category step does the same; id 0 adds nothing |
| ManagePosts.AddAuthorFilter | admin/pages/manage_posts.php:74-78 | the author step does the same; id 0 adds nothing |
| ManagePosts.AddDateFromFilter | admin/pages/manage_posts.php:81-85 | the date-from step binds the date plus " 00:00:00" |
| ManagePosts.AddDateToFilter | admin/pages/manage_posts.php:86-90 | the date-to step binds the date plus " 23:59:59" |
| ManagePosts.BuildWhere | admin/pages/manage_posts.php:47-95 | the built clauses are exactly the active filters in order, with aligned parameters and types |
| ManagePosts.ActiveUpToShape | admin/pages/manage_posts.php:52-90 | after k steps the clauses are the active ones among the first k, and the parameter count follows |
| ManagePosts.ClausesOfFilters | admin/pages/manage_posts.php:52-90 | a clause is present exactly when its filter is non-empty; parameters = clauses + 1 when search is active |
| ManagePosts.LikeAnything | admin/pages/manage_posts.php:53-55 | `LIKE '%'` matches every string |
| ManagePosts.LikePrefix | admin/pages/manage_posts.php:53-55 | `LIKE 't%'` with a literal t matches exactly the strings starting with t |
| ManagePosts.LikeStep | admin/pages/manage_posts.php:53-55 | a leading `%` matches here or one character later |
| ManagePosts.LikeLeadingPercentFound | admin/pages/manage_posts.php:53-55 | a match of a leading `%` starts at some position |
| ManagePosts.LikeLeadingPercentFrom | admin/pages/manage_posts.php:53-55 | a match from any position is a match of the leading `%` |
| ManagePosts.LikeLeadingPercent | admin/pages/manage_posts.php:53-55 | a leading `%` matches exactly when the rest matches from some position |
| ManagePosts.LikeSubstring | admin/pages/manage_posts.php:53-55 | `LIKE '%t%'` with a literal t holds exactly when t occurs in the string |
| ManagePosts.ClauseMeansFilter | admin/pages/manage_posts.php:52-90 | each bound clause holds for a post exactly when the post meets that filter |
| ManagePosts.EvalWhereAppend | admin/pages/manage_posts.php:92-95 | the AND of clauses plus one is the AND of the clauses and that one |
| ManagePosts.EvalKeep | admin/pages/manage_posts.php:52-90 | each filter step preserves the meaning of the clauses built so far |
| ManagePosts.EvalUpTo | admin/pages/manage_posts.php:52-90 | after k steps the WHERE holds exactly when the first k filters are met |
| ManagePosts.BuiltQueryMatchesFilters | admin/pages/manage_posts.php:47-95 | the built WHERE selects exactly the posts that meet every non-empty filter |
| ManagePosts.Offset | admin/pages/manage_posts.php:117 | the offset (page-1)*per_page is never negative |
| ManagePosts.TotalPages | admin/pages/manage_posts.php:142 | the page count is never negative, and is 0 exactly when the total or the page size is not positive |
| ManagePosts.TotalPagesIsCeiling | admin/pages/manage_posts.php:142 | the page count is the ceiling of total / per_page |
| ManagePosts.PageOf | admin/pages/manage_posts.php:117-118 | `LIMIT n OFFSET o` yields at most n ids, none past the end, with the exact count |
| ManagePosts.FirstPagesPrefix | admin/pages/manage_posts.php:117-118 | pages 1..n together are the listing's first n*per_page ids |
| ManagePosts.PagesCoverListing | admin/pages/manage_posts.php:117-142 | all total_pages pages together are the whole listing |
| ManagePosts.SlicesDisjoint | admin/pages/manage_posts.php:117-118 | non-overlapping slices of a listing without duplicates share no id |
| ManagePosts.PagesApart | admin/pages/manage_posts.php:117 | a later page starts at or after the end of an earlier one |
| ManagePosts.PagesDisjoint | admin/pages/manage_posts.php:117-118 | two different pages share no post |
| ManagePosts.TwentyFiveAtTenPerPage | admin/pages/manage_posts.php:117-142 | 25 posts at 10 per page: 3 pages, sizes 10 and 5, page 4 empty |
| ManagePosts.FilterIds | admin/pages/manage_posts.php:98-99 | the ids the count query counts are rows of the table |
| ManagePosts.FilterIdsMeaning | admin/pages/manage_posts.php:98-99 | an id is counted exactly when its row meets every non-empty filter |
| ManagePosts.BuildQueries | admin/pages/manage_posts.php:98-123 | both queries bind the same filter parameters; the page query appends exactly per_page and the offset, typed "ii" |
| ManagePosts.DistinctLength | admin/pages/manage_posts.php:117-118 | a duplicate-free listing of a set has the set's size |
| ManagePosts.ListingLength | admin/pages/manage_posts.php:98-118 | the listing has as many ids as the count query counts |
| ManagePosts.PageOfListing | admin/pages/manage_posts.php:117-118 | a page holds matching posts only, without duplicates, newest first |
| ManagePosts.GetFilteredPosts | admin/pages/manage_posts.php:39-151 | total = number of matches, page = the slice at the offset, total_pages = ceiling; a failed query gives 0 / [] |
| ManagePosts.CurrentPage | admin/pages/manage_posts.php:155 | `paged` gives its `(int)` when that is at least 1, and 1 when it is below 1 or missing |
| ManagePosts.PostsPerPage | admin/pages/manage_posts.php:154-156 | `per_page` gives its `(int)` when that is at least 1, and 1 when it is below 1; missing, it gives POSTS_PER_PAGE, else 10 |
| ManagePosts.PaginationLinksLand | admin/pages/manage_posts.php:381-410 | the Previous and Next links as written land on their target page, with the default page size and no search clause, and their page lists the posts of the current status, category, author and date filters |
| ManagePosts.PageLinkPaging | admin/pages/manage_posts.php:401-407 | a link asks for its target page and for no `per_page`, so the page size is POSTS_PER_PAGE or 10 |
| ManagePosts.PageLinkDropsSearch | admin/pages/manage_posts.php:160-166 | the link carries the search as `search_term`, which the page does not read, so the linked page has no search clause |
| ManagePosts.PageLinkQuery | admin/pages/manage_posts.php:159-166 | read back, the link's filters build the same WHERE and parameters as the current filters without the search |
| ManagePosts.LinkFiltersAgree | admin/pages/manage_posts.php:383-385 | `array_filter` and `http_build_query` drop only `empty()` values, so the status, category, author and date clauses read back unchanged |
| ManagePosts.LinkAgreesOn | admin/pages/manage_posts.php:383-385 | the same, one clause at a time |
| ManagePosts.TextFilterRoundTrip | admin/pages/manage_posts.php:159-166 | a trimmed text filter read back from a link is itself, or "" when it was `empty()` |
| ManagePosts.IdFilterRoundTrip | admin/pages/manage_posts.php:162-163 | an id filter read back from a link is itself, or no filter when it was null or 0 |
| ManagePosts.ParsedFiltersTrimmed | admin/pages/manage_posts.php:159-166 | the text values of `$filter_values` are already trimmed |
| ManagePosts.AgreeingFiltersSameQuery | admin/pages/manage_posts.php:52-95 | filter values that set the same clauses with the same parameters build the same WHERE and parameter list |
| ManagePosts.PageLinkLosesSearchAndPageSize | admin/pages/manage_posts.php:383-407 | from a page with a search and a non-default `per_page`, the links lead to a page without the search and with another page size |
| ManagePosts.IntendedLinkQuery | admin/pages/manage_posts.php:159-166 | a link that also carries `search` reads back to filters building exactly the current query |
| ManagePosts.IntendedPageLinkLands | admin/pages/manage_posts.php:154-166 | the links as evidently intended land on their target page with the same page size and list the posts of the same filters |
| ManagePosts.IdFilter | admin/pages/manage_posts.php:162-163 | a missing or "" id is no filter; any other value is its `(int)` cast |
| ManagePosts.ZeroIdAddsNoClause | admin/pages/manage_posts.php:66-71 | a category id that casts to 0 adds no clause |
| ManagePosts.ShownRangeIsPage | admin/pages/manage_posts.php:381-411 | the "Showing a to b" range is exactly the positions of the current page; Next shows before the last page |
| AddPost.AddGate | admin/actions/add_post_process.php:119-150 | the run goes on exactly when logged in, POSTed with submit_post, no GET id and a valid CSRF token; only the CSRF failure keeps the form |
| AddPost.ContentErrors | admin/actions/add_post_process.php:198-202 | a content error implies `empty()` content and no image file name |
| AddPost.ContentRequiredExactly | admin/actions/add_post_process.php:198-202 | content is required exactly when it is `empty()` and no image file name was sent |
| AddPost.SlugErrors | admin/actions/add_post_process.php:212-228 | an empty slug is an error exactly when the title is non-empty; a slug is an error exactly when some row holds it; a failed prepare gives the database message |
| AddPost.UploadCodeText | admin/actions/add_post_process.php:249-258 | codes outside the map give "Unknown error code N" |
| AddPost.HandleUpload | admin/actions/add_post_process.php:231-259 | the upload block appends exactly the upload errors for the directory state and upload outcome, and yields the stored name |
| AddPost.UploadOutcomes | admin/actions/add_post_process.php:231-259 | exactly one of: directory not created, not writable, upload errors, stored file; a failed upload adds one message |
| AddPost.ValidateCreate | admin/actions/add_post_process.php:166-259 | every check runs and the errors come in the order author, OG URL, title, content, slug, upload |
| AddPost.CheckErrorsEmpty | admin/actions/add_post_process.php:166-228 | no error before the upload step exactly when no check before it reported one |
| AddPost.CheckErrorsEmptyIff | admin/actions/add_post_process.php:166-228 | no error before the upload step exactly when author, URL, title, content and slug are acceptable |
| AddPost.UploadErrorsEmptyIff | admin/actions/add_post_process.php:231-259 | the upload step adds nothing exactly when no upload failed and an attempted one was stored |
| AddPost.CreateErrorsEmptyIff | admin/actions/add_post_process.php:166-262 | the error list is empty exactly when the submission is acceptable, check by check |
| AddPost.AcceptedSlugIsFree | admin/actions/add_post_process.php:212-228 | an accepted submission whose lookup ran has a non-empty slug no row holds |
| AddPost.CreateColumns | admin/actions/add_post_process.php:270-301 | the bound columns. The status is 'published' only when that was submitted, else 'draft'. The category is the `(int)` of a non-empty field, null when that is 0. Each optional column is null when its field is `empty()`, else that field. A blank excerpt becomes the generated excerpt of the tag-stripped clean content (null when the content is empty) |
| AddPost.InsertKeepsSlugsUnique | admin/actions/add_post_process.php:212-228 | inserting a row with a free slug keeps every slug unique |
| AddPost.InsertKeepsStatusesValid | admin/actions/add_post_process.php:157 | inserting a row with a valid status keeps all statuses valid |
| AddPost.CreatePost | admin/actions/add_post_process.php:119-318 | gates and errors leave the table alone; success inserts exactly one row and redirects to its edit page; failures keep the form; slugs stay unique and statuses valid |
| EditPost.BackTo | admin/actions/edit_post_process.php:125-127 | the kept form goes back to the edit page exactly when post_id > 0 |
| EditPost.EditGate | admin/actions/edit_post_process.php:83-130 | the run goes on exactly when logged in, POSTed, submit_post is 'update' or 'create', 'update' has post_id > 0, and the CSRF token is valid |
| EditPost.EditContentErrors | admin/actions/edit_post_process.php:198-200 | a content error implies `empty()` content |
| EditPost.EditContentRequiredExactly | admin/actions/edit_post_process.php:198-200 | content is required exactly when it is `empty()` |
| EditPost.MetaErrors | admin/actions/edit_post_process.php:203-208 | each meta field over 255 bytes adds its own error, and no other error |
| EditPost.MetaErrorsEmptyIff | admin/actions/edit_post_process.php:203-208 | no meta error exactly when both fields are at most 255 bytes |
| EditPost.ShortMetaPasses | admin/actions/edit_post_process.php:203-208 | fields of at most 63 characters always pass |
| EditPost.EditSlugErrors | admin/actions/edit_post_process.php:211-232 | a slug is an error exactly when another row holds it; an empty slug is an error exactly when the title is non-empty |
| EditPost.KeepingOwnSlugPasses | admin/actions/edit_post_process.php:217-229 | keeping the post's current slug is never a conflict |
| EditPost.ImageErrors | admin/actions/edit_post_process.php:246-261 | upload errors are merged; a failed upload adds one message naming its code |
| EditPost.HandleImage | admin/actions/edit_post_process.php:235-258 | the image step yields the kept, removed or replaced image and the old file to unlink |
| EditPost.ImageOutcomes | admin/actions/edit_post_process.php:235-258 | only the old file is unlinked, at most once; a new upload replaces; removal clears; otherwise nothing changes |
| EditPost.ValidateEdit | admin/actions/edit_post_process.php:168-261 | every check runs: author, URL, title, content, meta, slug, image |
| EditPost.EditErrorsEmpty | admin/actions/edit_post_process.php:168-261 | no error exactly when no check reported one |
| EditPost.EditErrorsEmptyIff | admin/actions/edit_post_process.php:168-264 | the error list is empty exactly when the edit is acceptable, check by check |
| EditPost.AcceptedEditSlugIsFree | admin/actions/edit_post_process.php:217-229 | an accepted edit whose lookup ran has a slug no other row holds |
| EditPost.EditColumns | admin/actions/edit_post_process.php:272-287 | the UPDATE's columns, with the same status, category and optional-column rules as the INSERT. A blank excerpt becomes the generated excerpt of the clean content, without tag stripping |
| EditPost.RewriteKeepsSlugsUnique | admin/actions/edit_post_process.php:217-229 | rewriting a row to a slug no other row holds keeps slugs unique |
| EditPost.RewriteKeepsStatusesValid | admin/actions/edit_post_process.php:153-156 | rewriting with a valid status keeps all statuses valid |
| EditPost.UpdatePost | admin/actions/edit_post_process.php:83-346 | gates change nothing; errors change nothing and go back to the edit form; success rewrites row post_id only; unlinks happen on every path past the gates |
| EditPost.RejectedEditStillUnlinks | admin/actions/edit_post_process.php:237-269 | asking for removal with an empty title gives errors, yet unlinks the row's image |
| DeletePost.AjaxHeaderIgnoresCase | admin/actions/delete_post.php:42 | the request is AJAX exactly when the header is "XMLHttpRequest" in any mix of letter case |
| DeletePost.Failure | admin/actions/delete_post.php:44-55 | an error reply is a JSON reply only for AJAX, with success false and no data |
| DeletePost.DeleteGate | admin/actions/delete_post.php:58-81 | the run goes on exactly when authorised, POSTed, with a valid CSRF token and a non-zero `(int)` post_id |
| DeletePost.DeleteSinglePost | admin/actions/delete_post.php:83-140 | removes only row post_id; success exactly when it existed, only then unlinking a non-empty image; a repeat is "not found"; `data` is present exactly on success |
| DeletePost.RemovingOneRow | admin/actions/delete_post.php:103-107 | the row count drops by one exactly when the id was present |
| BulkActions.SanitizeIds | admin/actions/bulk_post_actions.php:66-67 | the set of kept ids is exactly the positive `intval`s of the submitted values, and there are no more of them than values |
| BulkActions.SanitizeSnoc | admin/actions/bulk_post_actions.php:66-67 | one more value appends its `intval` when positive and nothing otherwise, so the kept ids keep the submitted order and repetitions that `count()` then counts |
| BulkActions.SanitizeKeepsPositiveIds | admin/actions/bulk_post_actions.php:66-67 | positive int ids come through unchanged and in order |
| BulkActions.IdSet | admin/actions/bulk_post_actions.php:85 | the WHERE ... IN set holds exactly the listed ids |
| BulkActions.Placeholders | admin/actions/bulk_post_actions.php:76 | the placeholder list alternates `?` and `,`, 2n-1 characters long |
| BulkActions.BindTypes | admin/actions/bulk_post_actions.php:77 | the type string is n letters `i` |
| BulkActions.PlaceholdersMatchTypes | admin/actions/bulk_post_actions.php:76-77 | the number of `?` equals the number of bind types and of ids |
| BulkActions.BulkGate | admin/actions/bulk_post_actions.php:34-74 | the run goes on exactly when authorised, POSTed, CSRF-valid, with a non-empty action and some positive id |
| BulkActions.NewStatus | admin/actions/bulk_post_actions.php:84 | 'publish' sets 'published'; 'draft' sets 'draft' |
| BulkActions.ActionFlash | admin/actions/bulk_post_actions.php:100-138 | the switch's message is a success exactly for a known action with a positive count |
| BulkActions.FinalFlashKinds | admin/actions/bulk_post_actions.php:141-147 | with exclusive counters there is never a warning, and the flash is a success exactly when something was processed |
| BulkActions.CountersExclusive | admin/actions/bulk_post_actions.php:78-133 | the counters are never both positive |
| BulkActions.RunAction | admin/actions/bulk_post_actions.php:81-139 | publish/draft set exactly the selected rows' status; delete removes exactly them; failures count every id; unknown actions do nothing |
| BulkActions.BulkUpdate | admin/actions/bulk_post_actions.php:34-151 | gates change nothing; the statement's effect as above; the partial warning never appears |
| BulkActions.RepublishingReportsError | admin/actions/bulk_post_actions.php:89-106 | publishing already-published posts changes nothing and reports an error |
| BulkActions.NineNineNine | admin/actions/bulk_post_actions.php:66 | `intval("999")` is 999 |
| BulkActions.DeleteSelectionExample | admin/actions/bulk_post_actions.php:66-115 | deleting ids 1, 2 and 999 from a table with rows 1 and 2 removes both and counts 2 |

## Left out

- Sessions, `header()` redirects, `json_encode`, `error_log`, `mkdir`, `is_writable`, `file_exists` and `unlink` are input/output. Flash messages, kept form data, redirect targets, JSON replies and unlinked file names are returned as values. The directory's state and the upload outcome are parameters.
- `slugify`, `generate_excerpt`, `handle_file_upload`, `validate_csrf_token`, `esc_html`, `strip_tags`, `filter_var` and the HTML purifier live in includes/functions.php, PHP builtins or a third-party library; includes/functions.php is not part of this model. They are left open as fields of `Helpers`. The purifier configuration is not modelled.
- check_auth.php is not part of this model. The delete and bulk handlers take its verdict as a boolean, and a refused user gets no flash in the model.
- SQL text is kept only as constants. MySQL collations are not modelled: under the usual case-insensitive collations, LIKE and `=` on strings ignore letter case. The model compares strings exactly. This covers the search term, the status filter of the list page, and the slug lookups of the create and update handlers (admin/actions/add_post_process.php:212-228, admin/actions/edit_post_process.php:211-232). A slug differing from a stored one only in case is free in the model but taken in MySQL. `NOW()` and real date comparison are not modelled either. Timestamps are integers, and the date filters go through a `parse` function left open.
- The display-only columns of the listing query are not modelled: author and category names come from LEFT JOINs.
- The order among posts with equal `created_at` is not modelled, because the source does not fix it. The database's ordered listing is a parameter constrained to be a duplicate-free, newest-first listing of the matching rows.
- Search terms containing `%`, `_` or `\`: the term is bound unescaped. So `%` and `_` act as wildcards, and `\` acts as MySQL's default LIKE escape character, which `Like` does not model. `ManagePosts.BuiltQueryMatchesFilters`, `ManagePosts.LikeSubstring`, `ManagePosts.LikePrefix` and `ManagePosts.FilterIdsMeaning` require a term without any of the three. The WHERE builder itself is modelled for every term.
- `ManagePosts.GetFilteredPosts`: requires `page >= 1 && per_page >= 1`. The clamping at admin/pages/manage_posts.php:155-156 guarantees this for `paged` and for a submitted `per_page`. The default POSTS_PER_PAGE is used unclamped, so the precondition holds without `per_page` only when that constant is at least 1. It takes the page query's result as an oracle listing.
- The value of POSTS_PER_PAGE is not part of this model; `PostsPerPage` takes it as an optional parameter.
- `ceil` on floats is modelled as integer ceiling division.
- `intval` of strings with exponents or hex, saturation at 64 bits, and `(int)` of floats are not modelled. Only leading whitespace, an optional sign and decimal digits are read.
- Loose comparisons are modelled as exact string comparison. This covers `in_array` of the status and `== '1'` of the remove checkbox; values like "01" that PHP also takes as 1 are not modelled. It also covers a `switch` over the bulk action, where exact comparison is what PHP does for these non-numeric strings.
- Array-valued request fields other than `post_ids` are modelled as absent strings.
- A file that `handle_file_upload` stored is not removed when the create or update is later rejected; the model does not track stored uploads on disk.
- The check-then-insert race on slug uniqueness is a concurrency matter, so it is not modelled. The uniqueness of slugs is stated as an invariant the handlers keep when their lookup ran.
- The schema migrations (migrations/002_add_seo_and_viewcount_to_posts.php, migrations/003_add_opengraph_image_url_to_posts.php) only hold DDL text.
- The doubled `<?php` tags and the stray `}` in admin/pages/manage_posts.php, admin/actions/bulk_post_actions.php and admin/actions/delete_post.php stop those files from parsing. The model follows the evident intent of the code.
- The HTML and JavaScript of the list page are not modelled, beyond the pagination-link conditions and the query the links carry. The links' URL encoding by `http_build_query` and HTML escaping by `esc_html` are taken as undone by the browser and PHP, so a link is modelled as the request it sends.
- `AddPost.UploadOutcomes`: requires that the earlier errors do not already contain the text "Failed to create image upload directory.". The upload block tests the whole error list with `in_array` (admin/actions/add_post_process.php:243). No earlier check produces that text, but the model does not prove this. `AddPost.CreateErrorsEmptyIff` does not need the precondition.

## Findings

| source | as written | input that shows it | evidently intended | confidence | as-written member | corrected member |
|---|---|---|---|---|---|---|
| admin/pages/manage_posts.php:383-407 | the Previous and Next links carry `paged` and `array_filter($filter_values)`, so the search goes out as `search_term` while the page reads `search` (line 160), and `per_page` is not carried at all | `?search=abc&per_page=5` with more than 5 matching posts: "Next" asks for page 2 of all posts, 10 (or POSTS_PER_PAGE) to a page | the links carry `search` and the given `per_page`, so the next page continues the same listing | high (not executed) | ManagePosts.PageLinkLosesSearchAndPageSize | ManagePosts.IntendedPageLinkLands |
