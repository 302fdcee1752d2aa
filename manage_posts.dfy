/**
 * The post list page: request parsing, the filtered and paginated query
 * `get_filtered_posts` builds and runs, and the conditions under which the
 * page shows its pagination links.
 */
module ManagePosts {
  import opened Wrappers
  import opened Php
  import opened Posts

  // ------------------------------------------------------------ filters

  /** The filter values after request parsing. */
  datatype Filters = Filters(
    searchTerm: string,
    status: string,
    categoryId: Option<int>,
    authorId: Option<int>,
    dateFrom: string,
    dateTo: string)

  /** `empty()` of an int that may be null: null and 0 are empty. */
  predicate EmptyInt(v: Option<int>) {
    v.None? || v.value == 0
  }

  /** One condition of the WHERE clause. */
  datatype Clause = SearchClause | StatusClause | CategoryClause | AuthorClause | DateFromClause | DateToClause

  /** A positional parameter of a prepared statement. */
  const Placeholder: string := "?"

  /** The text before the placeholder of a one-parameter clause. */
  function ClauseColumn(c: Clause): string {
    match c
    case SearchClause => ""
    case StatusClause => "p.status = "
    case CategoryClause => "p.category_id = "
    case AuthorClause => "p.author_id = "
    case DateFromClause => "p.created_at >= "
    case DateToClause => "p.created_at <= "
  }

  const TitleLike: string := "(p.title LIKE "
  const ContentLike: string := " OR p.content LIKE "

  function ClauseSql(c: Clause): string {
    if c == SearchClause then TitleLike + Placeholder + ContentLike + Placeholder + ")"
    else ClauseColumn(c) + Placeholder
  }

  /** A filter adds its clause exactly when its value is not `empty()`. */
  predicate Active(f: Filters, c: Clause) {
    match c
    case SearchClause => !EmptyStr(f.searchTerm)
    case StatusClause => !EmptyStr(f.status)
    case CategoryClause => !EmptyInt(f.categoryId)
    case AuthorClause => !EmptyInt(f.authorId)
    case DateFromClause => !EmptyStr(f.dateFrom)
    case DateToClause => !EmptyStr(f.dateTo)
  }

  /** A bound parameter, typed `s` or `i` for `bind_param`. */
  datatype Param = S(s: string) | I(i: int)

  function TypeChar(p: Param): char {
    if p.S? then 's' else 'i'
  }

  /** The type string has one letter per bound parameter, and the letter matches its kind. */
  predicate Aligned(params: seq<Param>, types: string) {
    |params| == |types| && forall k :: 0 <= k < |types| ==> types[k] == TypeChar(params[k])
  }

  function Arity(c: Clause): nat {
    if c == SearchClause then 2 else 1
  }

  const DayStart: string := " 00:00:00"
  const DayEnd: string := " 23:59:59"

  /** The parameters a clause binds. */
  function ClauseParams(f: Filters, c: Clause): (r: seq<Param>)
    ensures |r| == Arity(c)
  {
    match c
    case SearchClause => [S("%" + f.searchTerm + "%"), S("%" + f.searchTerm + "%")]
    case StatusClause => [S(f.status)]
    case CategoryClause => [I(f.categoryId.GetOr(0))]
    case AuthorClause => [I(f.authorId.GetOr(0))]
    case DateFromClause => [S(f.dateFrom + DayStart)]
    case DateToClause => [S(f.dateTo + DayEnd)]
  }

  /** The clauses of the set filters, in builder order. */
  function ActiveClauses(f: Filters): seq<Clause> {
    ActiveUpTo(f, 6)
  }

  /** The order in which the builder considers the filters. */
  const ClauseOrder: seq<Clause> :=
    [SearchClause, StatusClause, CategoryClause, AuthorClause, DateFromClause, DateToClause]

  /** The clauses of the set filters among the first `k` the builder considers. */
  function ActiveUpTo(f: Filters, k: nat): seq<Clause>
    requires k <= |ClauseOrder|
  {
    if k == 0 then [] else Keep(f, ClauseOrder[k - 1], ActiveUpTo(f, k - 1))
  }

  /** The parameter list of a clause list: each clause's parameters in clause order. */
  function ParamsFor(f: Filters, cs: seq<Clause>): seq<Param> {
    if cs == [] then [] else ClauseParams(f, cs[0]) + ParamsFor(f, cs[1..])
  }

  function TypesFor(params: seq<Param>): (r: string)
    ensures Aligned(params, r)
  {
    seq(|params|, k requires 0 <= k < |params| => TypeChar(params[k]))
  }

  lemma {:induction false} ParamsForAppend(f: Filters, cs: seq<Clause>, c: Clause)
    ensures ParamsFor(f, cs + [c]) == ParamsFor(f, cs) + ClauseParams(f, c)
    decreases |cs|
  {
    if cs == [] {
      assert [c][1..] == [];
    } else {
      assert (cs + [c])[1..] == cs[1..] + [c];
      ParamsForAppend(f, cs[1..], c);
    }
  }

  /** " WHERE " and the clauses joined by " AND ", or nothing when there are none. */
  function WhereSql(cs: seq<Clause>): (r: string)
    ensures cs == [] <==> r == ""
  {
    if cs == [] then "" else " WHERE " + JoinAnd(cs)
  }

  function JoinAnd(cs: seq<Clause>): string
    requires cs != []
  {
    if |cs| == 1 then ClauseSql(cs[0]) else ClauseSql(cs[0]) + " AND " + JoinAnd(cs[1..])
  }

  /** Each clause's SQL holds one `?` per parameter it binds. */
  lemma ClausePlaceholders(f: Filters, c: Clause)
    ensures Count(ClauseSql(c), '?') == |ClauseParams(f, c)|
  {
    if c == SearchClause {
      SearchPlaceholders();
    } else {
      assert '?' !in ClauseColumn(c) by {
        match c
        case StatusClause =>
        case CategoryClause =>
        case AuthorClause =>
        case DateFromClause =>
        case DateToClause =>
      }
      CountAbsent(ClauseColumn(c), '?');
      CountAppend(ClauseColumn(c), Placeholder, '?');
    }
  }

  /** The search clause matches the term against title and content: two `?`. */
  lemma SearchPlaceholders()
    ensures Count(ClauseSql(SearchClause), '?') == 2
  {
    CountAbsent(TitleLike, '?');
    CountAbsent(ContentLike, '?');
    CountAbsent(")", '?');
    CountAppend(TitleLike, Placeholder, '?');
    CountAppend(TitleLike + Placeholder, ContentLike, '?');
    CountAppend(TitleLike + Placeholder + ContentLike, Placeholder, '?');
    CountAppend(TitleLike + Placeholder + ContentLike + Placeholder, ")", '?');
  }

  /** The clauses joined by " AND " hold one `?` per parameter of the clause list. */
  lemma {:induction false} JoinAndPlaceholders(f: Filters, cs: seq<Clause>)
    requires cs != []
    ensures Count(JoinAnd(cs), '?') == |ParamsFor(f, cs)|
    decreases |cs|
  {
    ClausePlaceholders(f, cs[0]);
    if |cs| == 1 {
      assert cs[1..] == [];
    } else {
      JoinAndPlaceholders(f, cs[1..]);
      CountAbsent(" AND ", '?');
      CountAppend(ClauseSql(cs[0]), " AND ", '?');
      CountAppend(ClauseSql(cs[0]) + " AND ", JoinAnd(cs[1..]), '?');
    }
  }

  /**
   * The WHERE fragment holds exactly as many `?` as the parameter list has
   * entries, and the type string one letter per entry: `bind_param` gets as
   * many values and letters as the statement has placeholders.
   */
  lemma WherePlaceholders(f: Filters, cs: seq<Clause>)
    ensures Count(WhereSql(cs), '?') == |ParamsFor(f, cs)| == |TypesFor(ParamsFor(f, cs))|
  {
    if cs != [] {
      JoinAndPlaceholders(f, cs);
      CountAbsent(" WHERE ", '?');
      CountAppend(" WHERE ", JoinAnd(cs), '?');
    }
  }

  /** `acc` followed by `c` when its filter is set. */
  function Keep(f: Filters, c: Clause, acc: seq<Clause>): seq<Clause> {
    if Active(f, c) then acc + [c] else acc
  }

  /**
   * The builder after considering the first `k` filters: the clauses of the
   * set ones, their parameters in order, and one type letter per parameter.
   */
  predicate Stage(f: Filters, k: nat, clauses: seq<Clause>, params: seq<Param>, types: string)
    requires k <= |ClauseOrder|
  {
    clauses == ActiveUpTo(f, k) && params == ParamsFor(f, clauses) && types == TypesFor(params)
  }

  /** Considering a set filter appends its clause, its parameters and their letters. */
  lemma AddSet(f: Filters, k: nat, clauses: seq<Clause>, params: seq<Param>, types: string,
               added: seq<Param>, letters: string)
    requires k < |ClauseOrder| && Stage(f, k, clauses, params, types)
    requires Active(f, ClauseOrder[k]) && added == ClauseParams(f, ClauseOrder[k]) && letters == TypesFor(added)
    ensures Stage(f, k + 1, clauses + [ClauseOrder[k]], params + added, types + letters)
  {
    ParamsForAppend(f, clauses, ClauseOrder[k]);
    assert TypesFor(params + added) == TypesFor(params) + TypesFor(added);
  }

  /** Considering an empty filter changes nothing. */
  lemma SkipUnset(f: Filters, k: nat, clauses: seq<Clause>, params: seq<Param>, types: string)
    requires k < |ClauseOrder| && Stage(f, k, clauses, params, types)
    requires !Active(f, ClauseOrder[k])
    ensures Stage(f, k + 1, clauses, params, types)
  {
  }

  /** The search filter: `(p.title LIKE ? OR p.content LIKE ?)`, binding `%term%` twice. */
  method AddSearchFilter(f: Filters, clauses: seq<Clause>, params: seq<Param>, types: string)
    returns (clauses': seq<Clause>, params': seq<Param>, types': string)
    requires Stage(f, 0, clauses, params, types)
    ensures Stage(f, 1, clauses', params', types')
  {
    clauses', params', types' := clauses, params, types;
    if !EmptyStr(f.searchTerm) {
      var like := "%" + f.searchTerm + "%";
      AddSet(f, 0, clauses, params, types, [S(like), S(like)], "ss");
      clauses', params', types' := clauses + [SearchClause], params + [S(like), S(like)], types + "ss";
    } else {
      SkipUnset(f, 0, clauses, params, types);
    }
  }

  /** The status filter: `p.status = ?`. */
  method AddStatusFilter(f: Filters, clauses: seq<Clause>, params: seq<Param>, types: string)
    returns (clauses': seq<Clause>, params': seq<Param>, types': string)
    requires Stage(f, 1, clauses, params, types)
    ensures Stage(f, 2, clauses', params', types')
  {
    clauses', params', types' := clauses, params, types;
    if !EmptyStr(f.status) {
      AddSet(f, 1, clauses, params, types, [S(f.status)], "s");
      clauses', params', types' := clauses + [StatusClause], params + [S(f.status)], types + "s";
    } else {
      SkipUnset(f, 1, clauses, params, types);
    }
  }

  /** The category filter: `p.category_id = ?`. */
  method AddCategoryFilter(f: Filters, clauses: seq<Clause>, params: seq<Param>, types: string)
    returns (clauses': seq<Clause>, params': seq<Param>, types': string)
    requires Stage(f, 2, clauses, params, types)
    ensures Stage(f, 3, clauses', params', types')
  {
    clauses', params', types' := clauses, params, types;
    if !EmptyInt(f.categoryId) {
      AddSet(f, 2, clauses, params, types, [I(f.categoryId.value)], "i");
      clauses', params', types' := clauses + [CategoryClause], params + [I(f.categoryId.value)], types + "i";
    } else {
      SkipUnset(f, 2, clauses, params, types);
    }
  }

  /** The author filter: `p.author_id = ?`. */
  method AddAuthorFilter(f: Filters, clauses: seq<Clause>, params: seq<Param>, types: string)
    returns (clauses': seq<Clause>, params': seq<Param>, types': string)
    requires Stage(f, 3, clauses, params, types)
    ensures Stage(f, 4, clauses', params', types')
  {
    clauses', params', types' := clauses, params, types;
    if !EmptyInt(f.authorId) {
      AddSet(f, 3, clauses, params, types, [I(f.authorId.value)], "i");
      clauses', params', types' := clauses + [AuthorClause], params + [I(f.authorId.value)], types + "i";
    } else {
      SkipUnset(f, 3, clauses, params, types);
    }
  }

  /** The start-date filter: `p.created_at >= ?`, from the start of that day. */
  method AddDateFromFilter(f: Filters, clauses: seq<Clause>, params: seq<Param>, types: string)
    returns (clauses': seq<Clause>, params': seq<Param>, types': string)
    requires Stage(f, 4, clauses, params, types)
    ensures Stage(f, 5, clauses', params', types')
  {
    clauses', params', types' := clauses, params, types;
    if !EmptyStr(f.dateFrom) {
      AddSet(f, 4, clauses, params, types, [S(f.dateFrom + DayStart)], "s");
      clauses', params', types' := clauses + [DateFromClause], params + [S(f.dateFrom + DayStart)], types + "s";
    } else {
      SkipUnset(f, 4, clauses, params, types);
    }
  }

  /** The end-date filter: `p.created_at <= ?`, to the end of that day. */
  method AddDateToFilter(f: Filters, clauses: seq<Clause>, params: seq<Param>, types: string)
    returns (clauses': seq<Clause>, params': seq<Param>, types': string)
    requires Stage(f, 5, clauses, params, types)
    ensures Stage(f, 6, clauses', params', types')
  {
    clauses', params', types' := clauses, params, types;
    if !EmptyStr(f.dateTo) {
      AddSet(f, 5, clauses, params, types, [S(f.dateTo + DayEnd)], "s");
      clauses', params', types' := clauses + [DateToClause], params + [S(f.dateTo + DayEnd)], types + "s";
    } else {
      SkipUnset(f, 5, clauses, params, types);
    }
  }

  /**
   * The WHERE builder of `get_filtered_posts`: each filter that is not
   * `empty()` appends its clause, its parameters and their type letters,
   * in the order search, status, category, author, start date, end date.
   */
  method BuildWhere(f: Filters) returns (clauses: seq<Clause>, whereSql: string, params: seq<Param>, types: string)
    ensures clauses == ActiveClauses(f)
    ensures whereSql == WhereSql(clauses)
    ensures params == ParamsFor(f, clauses)
    ensures types == TypesFor(params)
  {
    clauses, params, types := [], [], "";
    clauses, params, types := AddSearchFilter(f, clauses, params, types);
    clauses, params, types := AddStatusFilter(f, clauses, params, types);
    clauses, params, types := AddCategoryFilter(f, clauses, params, types);
    clauses, params, types := AddAuthorFilter(f, clauses, params, types);
    clauses, params, types := AddDateFromFilter(f, clauses, params, types);
    clauses, params, types := AddDateToFilter(f, clauses, params, types);

    whereSql := "";
    if clauses != [] {
      whereSql := " WHERE " + JoinAnd(clauses);
    }
  }

  lemma {:induction false} ActiveUpToShape(f: Filters, k: nat)
    requires k <= |ClauseOrder|
    ensures forall c :: c in ActiveUpTo(f, k) <==> c in ClauseOrder[..k] && Active(f, c)
    ensures |ParamsFor(f, ActiveUpTo(f, k))|
         == |ActiveUpTo(f, k)| + (if k > 0 && Active(f, SearchClause) then 1 else 0)
  {
    if k > 0 {
      ActiveUpToShape(f, k - 1);
      var c := ClauseOrder[k - 1];
      assert ClauseOrder[..k] == ClauseOrder[..k - 1] + [c];
      ParamsForAppend(f, ActiveUpTo(f, k - 1), c);
    }
  }

  /**
   * A filter contributes a clause exactly when it is set, and the builder binds
   * one parameter per clause, plus one more for the two-sided search.
   */
  lemma ClausesOfFilters(f: Filters)
    ensures forall c :: c in ActiveClauses(f) <==> Active(f, c)
    ensures |ParamsFor(f, ActiveClauses(f))| == |ActiveClauses(f)| + (if Active(f, SearchClause) then 1 else 0)
  {
    ActiveUpToShape(f, 6);
    assert ClauseOrder[..6] == ClauseOrder;
    forall c: Clause
      ensures c in ClauseOrder
    {
      assert c == ClauseOrder[0] || c == ClauseOrder[1] || c == ClauseOrder[2]
          || c == ClauseOrder[3] || c == ClauseOrder[4] || c == ClauseOrder[5];
    }
  }

  // ------------------------------------------------------------ what a clause means

  /**
   * SQL `LIKE`: `%` matches any run of characters and `_` any one character.
   * Collation and MySQL's escape character `\` are not modelled, so this
   * agrees with MySQL only on patterns without a backslash.
   */
  predicate Like(s: string, pat: string)
    decreases |s| + |pat|
  {
    if pat == [] then s == []
    else if pat[0] == '%' then Like(s, pat[1..]) || (s != [] && Like(s[1..], pat))
    else s != [] && (pat[0] == '_' || pat[0] == s[0]) && Like(s[1..], pat[1..])
  }

  /** A search term with no `LIKE` wildcard and no `LIKE` escape character in it. */
  predicate Literal(t: string) {
    forall k :: 0 <= k < |t| ==> t[k] != '%' && t[k] != '_' && t[k] != '\\'
  }

  /** `t` occurs in `s` at position `i`. */
  predicate OccursAt(s: string, t: string, i: int) {
    0 <= i <= |s| - |t| && s[i..i + |t|] == t
  }

  /** `t` occurs in `s`. */
  predicate Contains(s: string, t: string) {
    exists i :: 0 <= i <= |s| - |t| && OccursAt(s, t, i)
  }

  lemma {:induction false} LikeAnything(s: string)
    ensures Like(s, "%")
    decreases |s|
  {
    assert "%"[1..] == [];
    if s != [] {
      LikeAnything(s[1..]);
    }
  }

  lemma {:induction false} LikePrefix(s: string, t: string)
    requires Literal(t)
    ensures Like(s, t + "%") <==> |t| <= |s| && s[..|t|] == t
    decreases |t|
  {
    if t == [] {
      assert t + "%" == "%";
      LikeAnything(s);
    } else {
      assert (t + "%")[1..] == t[1..] + "%";
      if s != [] {
        LikePrefix(s[1..], t[1..]);
        if |t| <= |s| {
          assert s[..|t|] == [s[0]] + s[1..][..|t| - 1];
          assert t == [t[0]] + t[1..];
        }
      }
    }
  }

  predicate LikeFrom(s: string, q: string, i: int)
    requires 0 <= i <= |s|
  {
    Like(s[i..], q)
  }

  lemma LikeStep(s: string, q: string)
    ensures Like(s, "%" + q) <==> Like(s, q) || (s != [] && Like(s[1..], "%" + q))
  {
    assert ("%" + q)[1..] == q;
  }

  lemma {:induction false} LikeLeadingPercentFound(s: string, q: string)
    requires Like(s, "%" + q)
    ensures exists i :: 0 <= i <= |s| && LikeFrom(s, q, i)
    decreases |s|
  {
    LikeStep(s, q);
    if Like(s, q) {
      assert s[0..] == s;
      assert LikeFrom(s, q, 0);
    } else {
      LikeLeadingPercentFound(s[1..], q);
      var i :| 0 <= i <= |s[1..]| && LikeFrom(s[1..], q, i);
      assert s[1..][i..] == s[i + 1..];
      assert LikeFrom(s, q, i + 1);
    }
  }

  lemma {:induction false} LikeLeadingPercentFrom(s: string, q: string, i: int)
    requires 0 <= i <= |s| && LikeFrom(s, q, i)
    ensures Like(s, "%" + q)
    decreases i
  {
    LikeStep(s, q);
    if i == 0 {
      assert s[0..] == s;
    } else {
      assert s[1..][i - 1..] == s[i..];
      LikeLeadingPercentFrom(s[1..], q, i - 1);
    }
  }

  /** A pattern that starts with `%` matches when the rest matches some suffix. */
  lemma LikeLeadingPercent(s: string, q: string)
    ensures Like(s, "%" + q) <==> exists i :: 0 <= i <= |s| && LikeFrom(s, q, i)
  {
    if Like(s, "%" + q) {
      LikeLeadingPercentFound(s, q);
    }
    if exists i :: 0 <= i <= |s| && LikeFrom(s, q, i) {
      var i :| 0 <= i <= |s| && LikeFrom(s, q, i);
      LikeLeadingPercentFrom(s, q, i);
    }
  }

  /** For a term without wildcards, `LIKE '%term%'` is substring search. */
  lemma LikeSubstring(s: string, t: string)
    requires Literal(t)
    ensures Like(s, "%" + t + "%") <==> Contains(s, t)
  {
    assert "%" + t + "%" == "%" + (t + "%");
    LikeLeadingPercent(s, t + "%");
    if Contains(s, t) {
      var i :| 0 <= i <= |s| - |t| && OccursAt(s, t, i);
      LikePrefix(s[i..], t);
      assert s[i..][..|t|] == s[i..i + |t|];
      assert LikeFrom(s, t + "%", i);
    }
    if exists i :: 0 <= i <= |s| && LikeFrom(s, t + "%", i) {
      var i :| 0 <= i <= |s| && LikeFrom(s, t + "%", i);
      LikePrefix(s[i..], t);
      assert s[i..][..|t|] == s[i..i + |t|];
      assert OccursAt(s, t, i);
    }
  }

  /**
   * One clause evaluated on a row with its bound parameters, as the database
   * does it: a NULL category never equals a bound id, and datetimes are
   * compared after MySQL reads the bound string with `parse`.
   */
  predicate EvalClause(c: Clause, ps: seq<Param>, p: Post, parse: string -> Timestamp) {
    match c
    case SearchClause => |ps| == 2 && ps[0].S? && ps[1].S? && (Like(p.title, ps[0].s) || Like(p.content, ps[1].s))
    case StatusClause => |ps| == 1 && ps[0].S? && p.status == ps[0].s
    case CategoryClause => |ps| == 1 && ps[0].I? && p.categoryId == Some(ps[0].i)
    case AuthorClause => |ps| == 1 && ps[0].I? && p.authorId == ps[0].i
    case DateFromClause => |ps| == 1 && ps[0].S? && p.createdAt >= parse(ps[0].s)
    case DateToClause => |ps| == 1 && ps[0].S? && p.createdAt <= parse(ps[0].s)
  }

  /** The WHERE clause evaluated on a row: every clause holds on its share of the parameters. */
  predicate EvalWhere(cs: seq<Clause>, ps: seq<Param>, p: Post, parse: string -> Timestamp)
    decreases |cs|
  {
    if cs == [] then true
    else
      var k := Arity(cs[0]);
      |ps| >= k && EvalClause(cs[0], ps[..k], p, parse) && EvalWhere(cs[1..], ps[k..], p, parse)
  }

  /**
   * The reference meaning of the filters: every set filter constrains the row,
   * a search term is looked for in the title or the content, and the date range
   * includes the whole of both end days.
   */
  predicate MatchesFilters(f: Filters, p: Post, parse: string -> Timestamp) {
    && (EmptyStr(f.searchTerm) || Contains(p.title, f.searchTerm) || Contains(p.content, f.searchTerm))
    && (EmptyStr(f.status) || p.status == f.status)
    && (EmptyInt(f.categoryId) || p.categoryId == f.categoryId)
    && (EmptyInt(f.authorId) || Some(p.authorId) == f.authorId)
    && (EmptyStr(f.dateFrom) || p.createdAt >= parse(f.dateFrom + DayStart))
    && (EmptyStr(f.dateTo) || p.createdAt <= parse(f.dateTo + DayEnd))
  }

  /** What one filter asks of a row. */
  predicate Meaning(f: Filters, c: Clause, p: Post, parse: string -> Timestamp) {
    match c
    case SearchClause => Contains(p.title, f.searchTerm) || Contains(p.content, f.searchTerm)
    case StatusClause => p.status == f.status
    case CategoryClause => p.categoryId == f.categoryId
    case AuthorClause => Some(p.authorId) == f.authorId
    case DateFromClause => p.createdAt >= parse(f.dateFrom + DayStart)
    case DateToClause => p.createdAt <= parse(f.dateTo + DayEnd)
  }

  lemma ClauseMeansFilter(f: Filters, c: Clause, p: Post, parse: string -> Timestamp)
    requires Active(f, c)
    requires Literal(f.searchTerm)
    ensures EvalClause(c, ClauseParams(f, c), p, parse) <==> Meaning(f, c, p, parse)
  {
    if c == SearchClause {
      LikeSubstring(p.title, f.searchTerm);
      LikeSubstring(p.content, f.searchTerm);
    }
  }

  lemma {:induction false} EvalWhereAppend(f: Filters, cs: seq<Clause>, c: Clause, p: Post, parse: string -> Timestamp)
    ensures EvalWhere(cs + [c], ParamsFor(f, cs) + ClauseParams(f, c), p, parse)
        <==> EvalWhere(cs, ParamsFor(f, cs), p, parse) && EvalClause(c, ClauseParams(f, c), p, parse)
    decreases |cs|
  {
    var ps := ClauseParams(f, c);
    if cs == [] {
      assert [c][1..] == [];
      assert ps[..Arity(c)] == ps && ps[Arity(c)..] == [];
    } else {
      var d := cs[0];
      var k := Arity(d);
      var head := ClauseParams(f, d);
      var tail := ParamsFor(f, cs[1..]);
      assert (cs + [c])[0] == d && (cs + [c])[1..] == cs[1..] + [c];
      assert ParamsFor(f, cs) + ps == head + (tail + ps);
      assert (head + (tail + ps))[..k] == head && (head + (tail + ps))[k..] == tail + ps;
      assert (head + tail)[..k] == head && (head + tail)[k..] == tail;
      EvalWhereAppend(f, cs[1..], c, p, parse);
    }
  }

  /** Considering one more filter: the WHERE clause gains its condition when it is set. */
  lemma EvalKeep(f: Filters, cs: seq<Clause>, c: Clause, p: Post, parse: string -> Timestamp)
    requires Literal(f.searchTerm)
    ensures EvalWhere(Keep(f, c, cs), ParamsFor(f, Keep(f, c, cs)), p, parse)
        <==> EvalWhere(cs, ParamsFor(f, cs), p, parse) && (Active(f, c) ==> Meaning(f, c, p, parse))
  {
    if Active(f, c) {
      ParamsForAppend(f, cs, c);
      EvalWhereAppend(f, cs, c, p, parse);
      ClauseMeansFilter(f, c, p, parse);
    } else {
      assert Keep(f, c, cs) == cs;
    }
  }

  lemma {:induction false} EvalUpTo(f: Filters, k: nat, p: Post, parse: string -> Timestamp)
    requires k <= |ClauseOrder| && Literal(f.searchTerm)
    ensures EvalWhere(ActiveUpTo(f, k), ParamsFor(f, ActiveUpTo(f, k)), p, parse)
        <==> forall j :: 0 <= j < k && Active(f, ClauseOrder[j]) ==> Meaning(f, ClauseOrder[j], p, parse)
  {
    if k > 0 {
      EvalUpTo(f, k - 1, p, parse);
      EvalKeep(f, ActiveUpTo(f, k - 1), ClauseOrder[k - 1], p, parse);
    }
  }

  /**
   * The WHERE clause the builder produces, with the parameters it binds,
   * selects exactly the rows that match the filters (for a search term
   * without `LIKE` wildcards).
   */
  lemma BuiltQueryMatchesFilters(f: Filters, p: Post, parse: string -> Timestamp)
    requires Literal(f.searchTerm)
    ensures EvalWhere(ActiveClauses(f), ParamsFor(f, ActiveClauses(f)), p, parse) <==> MatchesFilters(f, p, parse)
  {
    EvalUpTo(f, 6, p, parse);
    var o := ClauseOrder;
    assert o[0] == SearchClause && o[1] == StatusClause && o[2] == CategoryClause;
    assert o[3] == AuthorClause && o[4] == DateFromClause && o[5] == DateToClause;
  }

  // ------------------------------------------------------------ pagination arithmetic

  /** `($page - 1) * $per_page`. */
  function Offset(page: int, perPage: int): (r: int)
    requires page >= 1 && perPage >= 0
    ensures r >= 0
  {
    (page - 1) * perPage
  }

  /** `ceil($total_posts / $per_page)` when both are positive, otherwise 0. */
  function TotalPages(total: int, perPage: int): (r: int)
    ensures r >= 0
    ensures r == 0 <==> total <= 0 || perPage <= 0
  {
    if perPage > 0 && total > 0 then (total + perPage - 1) / perPage else 0
  }

  /** The page count is the least number of full-size pages that hold every match. */
  lemma TotalPagesIsCeiling(total: int, perPage: int)
    requires total > 0 && perPage > 0
    ensures (TotalPages(total, perPage) - 1) * perPage < total <= TotalPages(total, perPage) * perPage
  {
    var q := (total + perPage - 1) / perPage;
    var m := (total + perPage - 1) % perPage;
    assert total + perPage - 1 == q * perPage + m;
    assert (q - 1) * perPage == q * perPage - perPage;
  }

  /** Rows `offset` to `offset + limit` of the ordered listing (`LIMIT ? OFFSET ?`). */
  function PageOf(ordered: seq<int>, offset: int, limit: int): (r: seq<int>)
    requires offset >= 0 && limit >= 0
    ensures |r| <= limit
    ensures offset >= |ordered| ==> r == []
    ensures |r| == (if offset + limit <= |ordered| then limit else if offset <= |ordered| then |ordered| - offset else 0)
  {
    var lo := if offset < |ordered| then offset else |ordered|;
    var hi := if offset + limit < |ordered| then offset + limit else |ordered|;
    ordered[lo..hi]
  }

  /** Pages 1 to n, one after the other. */
  function FirstPages(ordered: seq<int>, perPage: int, n: nat): seq<int>
    requires perPage >= 0
  {
    if n == 0 then [] else FirstPages(ordered, perPage, n - 1) + PageOf(ordered, Offset(n, perPage), perPage)
  }

  lemma {:induction false} FirstPagesPrefix(ordered: seq<int>, perPage: int, n: nat)
    requires perPage >= 0
    ensures FirstPages(ordered, perPage, n) == ordered[..if n * perPage < |ordered| then n * perPage else |ordered|]
  {
    if n > 0 {
      FirstPagesPrefix(ordered, perPage, n - 1);
      assert (n - 1) * perPage == n * perPage - perPage;
    }
  }

  /** Pages 1 to `TotalPages`, read in order, list every match exactly once and in order. */
  lemma PagesCoverListing(ordered: seq<int>, perPage: int)
    requires perPage >= 1
    ensures FirstPages(ordered, perPage, TotalPages(|ordered|, perPage)) == ordered
  {
    var n := TotalPages(|ordered|, perPage);
    FirstPagesPrefix(ordered, perPage, n);
    if |ordered| > 0 {
      TotalPagesIsCeiling(|ordered|, perPage);
    }
  }

  lemma SlicesDisjoint(ordered: seq<int>, a: int, b: int, c: int, d: int)
    requires 0 <= a <= b <= c <= d <= |ordered|
    requires forall i, j :: 0 <= i < j < |ordered| ==> ordered[i] != ordered[j]
    ensures forall id :: id in ordered[a..b] ==> id !in ordered[c..d]
  {
    forall id | id in ordered[a..b]
      ensures id !in ordered[c..d]
    {
      var x :| a <= x < b && ordered[x] == id;
      forall k | 0 <= k < d - c
        ensures ordered[c..d][k] != id
      {
        assert x < c + k;
      }
    }
  }

  lemma PagesApart(page1: int, page2: int, perPage: int)
    requires perPage >= 1 && 1 <= page1 < page2
    ensures Offset(page1, perPage) + perPage <= Offset(page2, perPage)
  {
    assert page1 * perPage <= (page2 - 1) * perPage;
  }

  /** Two different pages share no row. */
  lemma PagesDisjoint(ordered: seq<int>, perPage: int, page1: int, page2: int)
    requires perPage >= 1 && page1 >= 1 && page2 >= 1 && page1 != page2
    requires forall i, j :: 0 <= i < j < |ordered| ==> ordered[i] != ordered[j]
    ensures forall id :: id in PageOf(ordered, Offset(page1, perPage), perPage)
                      ==> id !in PageOf(ordered, Offset(page2, perPage), perPage)
  {
    var n := |ordered|;
    var o1, o2 := Offset(page1, perPage), Offset(page2, perPage);
    var lo1, hi1 := if o1 < n then o1 else n, if o1 + perPage < n then o1 + perPage else n;
    var lo2, hi2 := if o2 < n then o2 else n, if o2 + perPage < n then o2 + perPage else n;
    assert PageOf(ordered, o1, perPage) == ordered[lo1..hi1];
    assert PageOf(ordered, o2, perPage) == ordered[lo2..hi2];
    if page1 < page2 {
      PagesApart(page1, page2, perPage);
      SlicesDisjoint(ordered, lo1, hi1, lo2, hi2);
    } else {
      PagesApart(page2, page1, perPage);
      SlicesDisjoint(ordered, lo2, hi2, lo1, hi1);
    }
  }

  /** 25 matches at 10 per page: 3 pages, a full first page and a last page of 5. */
  lemma TwentyFiveAtTenPerPage(ordered: seq<int>)
    requires |ordered| == 25
    ensures TotalPages(|ordered|, 10) == 3
    ensures |PageOf(ordered, Offset(1, 10), 10)| == 10
    ensures |PageOf(ordered, Offset(3, 10), 10)| == 5
    ensures PageOf(ordered, Offset(4, 10), 10) == []
  {
  }

  // ------------------------------------------------------------ the two queries

  const SelectColumns: string :=
    "SELECT p.id, p.title, p.slug, p.status, p.created_at, p.updated_at, p.view_count, "
    + "p.author_id, u.username AS author_name, u.full_name AS author_full_name, "
    + "c.id AS category_id, c.name AS category_name"
  const FromSql: string :=
    " FROM posts p LEFT JOIN admin_users u ON p.author_id = u.id LEFT JOIN categories c ON p.category_id = c.id"
  const OrderBy: string := " ORDER BY p.created_at DESC LIMIT "
  const OffsetSql: string := " OFFSET "
  const OrderLimitSql: string := OrderBy + Placeholder + OffsetSql + Placeholder

  /**
   * The page query's WHERE fragment and its ORDER BY / LIMIT / OFFSET tail
   * hold one `?` per filter parameter plus two, matching the filter
   * parameters followed by per_page and the offset.
   */
  lemma PageQueryPlaceholders(f: Filters, cs: seq<Clause>)
    ensures Count(WhereSql(cs) + OrderLimitSql, '?') == |ParamsFor(f, cs)| + 2
  {
    WherePlaceholders(f, cs);
    OrderLimitPlaceholders();
    CountAppend(WhereSql(cs), OrderLimitSql, '?');
  }

  /** `LIMIT ? OFFSET ?`: two `?`. */
  lemma OrderLimitPlaceholders()
    ensures Count(OrderLimitSql, '?') == 2
  {
    CountAbsent(OrderBy, '?');
    CountAbsent(OffsetSql, '?');
    CountAppend(OrderBy, Placeholder, '?');
    CountAppend(OrderBy + Placeholder, OffsetSql, '?');
    CountAppend(OrderBy + Placeholder + OffsetSql, Placeholder, '?');
  }

  /** A prepared statement: its WHERE clauses, its SQL text, its parameters and their type letters. */
  datatype Query = Query(clauses: seq<Clause>, sql: string, params: seq<Param>, types: string)

  /** The ids the database selects with a query's WHERE clause and parameters. */
  function SelectedIds(rows: Table, clauses: seq<Clause>, params: seq<Param>, parse: string -> Timestamp): set<int> {
    set id | id in rows && EvalWhere(clauses, params, rows[id], parse)
  }

  /** The rows matching the filters, as the count and the page query select them. */
  function FilterIds(rows: Table, f: Filters, parse: string -> Timestamp): (r: set<int>)
    ensures r <= rows.Keys
  {
    SelectedIds(rows, ActiveClauses(f), ParamsFor(f, ActiveClauses(f)), parse)
  }

  lemma FilterIdsMeaning(rows: Table, f: Filters, parse: string -> Timestamp, id: int)
    requires Literal(f.searchTerm)
    ensures id in FilterIds(rows, f, parse) <==> id in rows && MatchesFilters(f, rows[id], parse)
  {
    if id in rows {
      BuiltQueryMatchesFilters(f, rows[id], parse);
    }
  }

  /**
   * The count query and the page query: both bind the filter parameters, and
   * the page query appends `[per_page, offset]` with types "ii".
   */
  method BuildQueries(f: Filters, page: int, perPage: int) returns (count: Query, listing: Query)
    requires page >= 1 && perPage >= 0
    ensures count.clauses == listing.clauses == ActiveClauses(f)
    ensures count.params == ParamsFor(f, ActiveClauses(f))
    ensures listing.params == count.params + [I(perPage), I(Offset(page, perPage))]
    ensures listing.types == count.types + "ii"
    ensures Aligned(count.params, count.types) && Aligned(listing.params, listing.types)
    ensures count.sql == "SELECT COUNT(p.id) as total " + FromSql + WhereSql(ActiveClauses(f))
    ensures listing.sql == SelectColumns + FromSql + WhereSql(ActiveClauses(f)) + OrderLimitSql
  {
    var clauses, whereSql, params, types := BuildWhere(f);
    count := Query(clauses, "SELECT COUNT(p.id) as total " + FromSql + whereSql, params, types);
    var offset := (page - 1) * perPage;
    var pageParams := params;
    var pageTypes := types;
    pageParams := pageParams + [I(perPage), I(offset)];
    pageTypes := pageTypes + "ii";
    listing := Query(clauses, SelectColumns + FromSql + whereSql + OrderLimitSql, pageParams, pageTypes);
  }

  /**
   * What `ORDER BY p.created_at DESC` returns: each selected id once, newest
   * first. Rows with equal `created_at` may come in any order.
   */
  predicate IsListing(rows: Table, ids: set<int>, ordered: seq<int>) {
    && ids <= rows.Keys
    && (forall k :: 0 <= k < |ordered| ==> ordered[k] in ids)
    && (forall id :: id in ids ==> id in ordered)
    && (forall i, j :: 0 <= i < j < |ordered| ==> ordered[i] != ordered[j])
    && (forall i, j :: 0 <= i < j < |ordered| ==> rows[ordered[i]].createdAt >= rows[ordered[j]].createdAt)
  }

  lemma {:induction false} DistinctLength(ordered: seq<int>, ids: set<int>)
    requires forall k :: 0 <= k < |ordered| ==> ordered[k] in ids
    requires forall id :: id in ids ==> id in ordered
    requires forall i, j :: 0 <= i < j < |ordered| ==> ordered[i] != ordered[j]
    ensures |ordered| == |ids|
    decreases |ordered|
  {
    if ordered != [] {
      var x := ordered[0];
      var rest := ordered[1..];
      forall id | id in ids - {x} ensures id in rest {
        var k :| 0 <= k < |ordered| && ordered[k] == id;
      }
      DistinctLength(rest, ids - {x});
    } else {
      assert forall id :: id !in ids;
      assert ids == {};
    }
  }

  /** A listing holds as many ids as the count query counts. */
  lemma ListingLength(rows: Table, ids: set<int>, ordered: seq<int>)
    requires IsListing(rows, ids, ordered)
    ensures |ordered| == |ids|
  {
    DistinctLength(ordered, ids);
  }

  /** A page of a listing holds selected ids only, still newest first. */
  lemma PageOfListing(rows: Table, ids: set<int>, ordered: seq<int>, offset: int, limit: int)
    requires IsListing(rows, ids, ordered) && offset >= 0 && limit >= 0
    ensures forall k :: 0 <= k < |PageOf(ordered, offset, limit)| ==> PageOf(ordered, offset, limit)[k] in ids
    ensures forall i, j :: 0 <= i < j < |PageOf(ordered, offset, limit)|
              ==> rows[PageOf(ordered, offset, limit)[i]].createdAt >= rows[PageOf(ordered, offset, limit)[j]].createdAt
  {
    var lo := if offset < |ordered| then offset else |ordered|;
    var page := PageOf(ordered, offset, limit);
    assert forall k :: 0 <= k < |page| ==> page[k] == ordered[lo + k];
  }

  /** What the database does for the two statements of one request. */
  datatype ListDb = ListDb(
    count: StmtResult,
    listing: StmtResult,
    parse: string -> Timestamp,
    ordered: seq<int>)

  /** The array `get_filtered_posts` returns; `posts` holds row ids. */
  datatype ListResult = ListResult(posts: seq<int>, totalPosts: int, totalPages: int, currentPage: int, perPage: int)

  /**
   * `get_filtered_posts`: the number of matching rows and the requested page of
   * them, newest first. A failed count leaves the total at 0 and a failed page
   * query leaves the page empty.
   */
  method GetFilteredPosts(rows: Table, f: Filters, page: int, perPage: int, db: ListDb) returns (r: ListResult)
    requires page >= 1 && perPage >= 1
    requires IsListing(rows, FilterIds(rows, f, db.parse), db.ordered)
    ensures r.totalPosts == if db.count == Executed then |FilterIds(rows, f, db.parse)| else 0
    ensures r.posts == if db.listing == Executed then PageOf(db.ordered, Offset(page, perPage), perPage) else []
    ensures r.totalPages == TotalPages(r.totalPosts, perPage)
    ensures r.currentPage == page && r.perPage == perPage
    ensures |r.posts| <= perPage
    ensures forall k :: 0 <= k < |r.posts| ==> r.posts[k] in FilterIds(rows, f, db.parse)
    ensures forall i, j :: 0 <= i < j < |r.posts| ==> rows[r.posts[i]].createdAt >= rows[r.posts[j]].createdAt
  {
    var count, listing := BuildQueries(f, page, perPage);

    var totalPosts := 0;
    if db.count == Executed {
      totalPosts := |SelectedIds(rows, count.clauses, count.params, db.parse)|;
    }

    var offset := (page - 1) * perPage;
    var postsData: seq<int> := [];
    if db.listing == Executed {
      postsData := PageOf(db.ordered, offset, perPage);
      PageOfListing(rows, FilterIds(rows, f, db.parse), db.ordered, offset, perPage);
    }

    var totalPages := TotalPages(totalPosts, perPage);
    r := ListResult(postsData, totalPosts, totalPages, page, perPage);
  }

  // ------------------------------------------------------------ the request and the view

  /** The query-string parameters the list page reads (`$_GET`). */
  datatype ListRequest = ListRequest(
    paged: Option<string>,
    perPage: Option<string>,
    search: Option<string>,
    status: Option<string>,
    categoryId: Option<string>,
    authorId: Option<string>,
    dateFrom: Option<string>,
    dateTo: Option<string>)

  /** `isset($_GET['paged']) ? max(1, (int)$_GET['paged']) : 1`. */
  function CurrentPage(paged: Option<string>): (r: int)
    ensures r >= 1
    ensures paged.Some? && IntVal(paged.value) >= 1 ==> r == IntVal(paged.value)
    ensures paged.Some? && IntVal(paged.value) < 1 ==> r == 1
    ensures paged.None? ==> r == 1
  {
    if paged.Some? then (if IntVal(paged.value) > 1 then IntVal(paged.value) else 1) else 1
  }

  /** `isset($_GET['per_page']) ? max(1, (int)...) : POSTS_PER_PAGE` (10 when that constant is undefined). */
  function PostsPerPage(perPage: Option<string>, configured: Option<int>): (r: int)
    ensures perPage.Some? ==> r >= 1 && (IntVal(perPage.value) >= 1 ==> r == IntVal(perPage.value))
    ensures perPage.Some? && IntVal(perPage.value) < 1 ==> r == 1
    ensures perPage.None? ==> r == configured.GetOr(10)
  {
    if perPage.Some? then (if IntVal(perPage.value) > 1 then IntVal(perPage.value) else 1)
    else configured.GetOr(10)
  }

  /** `isset($_GET[k]) && $_GET[k] !== '' ? (int)$_GET[k] : null`. */
  function IdFilter(v: Option<string>): (r: Option<int>)
    ensures v.None? || v == Some("") ==> r.None?
    ensures v.Some? && v.value != "" ==> r == Some(IntVal(v.value))
  {
    if v.Some? && v.value != "" then Some(IntVal(v.value)) else None
  }

  function ParseFilters(q: ListRequest): Filters {
    Filters(Field(q.search), Field(q.status), IdFilter(q.categoryId), IdFilter(q.authorId),
            Field(q.dateFrom), Field(q.dateTo))
  }

  /** A category or author id that casts to 0 ("0", "abc") selects nothing: no clause is added. */
  lemma ZeroIdAddsNoClause(q: ListRequest)
    requires q.categoryId.Some? && IntVal(q.categoryId.value) == 0
    ensures CategoryClause !in ActiveClauses(ParseFilters(q))
  {
    ClausesOfFilters(ParseFilters(q));
  }

  /** The pagination block is shown only when there is more than one page. */
  predicate ShowsPagination(totalPages: int) {
    totalPages > 1
  }

  predicate ShowsPrevious(page: int) {
    page > 1
  }

  predicate ShowsNext(page: int, totalPages: int) {
    page < totalPages
  }

  /** "Showing A to B of N": the first position shown. */
  function RangeStart(page: int, perPage: int, total: int): int {
    if total > 0 then (page - 1) * perPage + 1 else 0
  }

  /** "Showing A to B of N": the last position shown. */
  function RangeEnd(page: int, perPage: int, total: int): int {
    if page * perPage < total then page * perPage else total
  }

  /**
   * On a page that exists, "Showing A to B" names exactly the 1-based
   * positions of the rows on that page, and "Next" is offered exactly when the
   * following page holds rows.
   */
  lemma ShownRangeIsPage(ordered: seq<int>, page: int, perPage: int)
    requires perPage >= 1 && 1 <= page <= TotalPages(|ordered|, perPage)
    ensures RangeStart(page, perPage, |ordered|) == Offset(page, perPage) + 1
    ensures RangeEnd(page, perPage, |ordered|) - RangeStart(page, perPage, |ordered|) + 1
            == |PageOf(ordered, Offset(page, perPage), perPage)| > 0
    ensures ShowsNext(page, TotalPages(|ordered|, perPage))
            <==> PageOf(ordered, Offset(page + 1, perPage), perPage) != []
  {
    TotalPagesIsCeiling(|ordered|, perPage);
    var n := TotalPages(|ordered|, perPage);
    assert (page - 1) * perPage <= (n - 1) * perPage;
    assert page * perPage == (page - 1) * perPage + perPage;
    if page < n {
      assert page * perPage <= (n - 1) * perPage;
    } else {
      assert page * perPage >= |ordered|;
    }
  }

  // ------------------------------------------------------------ the pagination links

  /** Two filter values build the same WHERE clause and bind the same parameters. */
  predicate SameQuery(f: Filters, g: Filters) {
    ActiveClauses(f) == ActiveClauses(g) && ParamsFor(f, ActiveClauses(f)) == ParamsFor(g, ActiveClauses(g))
  }

  /** Filter `c` is set in both or in neither, and where set it binds the same parameters. */
  predicate AgreeOn(f: Filters, g: Filters, c: Clause) {
    Active(f, c) == Active(g, c) && (Active(f, c) ==> ClauseParams(f, c) == ClauseParams(g, c))
  }

  lemma {:induction false} ActiveUpToAgree(f: Filters, g: Filters, k: nat)
    requires k <= |ClauseOrder|
    requires forall c :: AgreeOn(f, g, c)
    ensures ActiveUpTo(f, k) == ActiveUpTo(g, k)
  {
    if k > 0 {
      ActiveUpToAgree(f, g, k - 1);
      assert AgreeOn(f, g, ClauseOrder[k - 1]);
    }
  }

  lemma {:induction false} ParamsForAgree(f: Filters, g: Filters, cs: seq<Clause>)
    requires forall c :: c in cs ==> ClauseParams(f, c) == ClauseParams(g, c)
    ensures ParamsFor(f, cs) == ParamsFor(g, cs)
    decreases |cs|
  {
    if cs != [] {
      assert cs[0] in cs;
      ParamsForAgree(f, g, cs[1..]);
    }
  }

  /** Filter values that agree on every clause build the same query. */
  lemma AgreeingFiltersSameQuery(f: Filters, g: Filters)
    requires forall c :: AgreeOn(f, g, c)
    ensures SameQuery(f, g)
  {
    ActiveUpToAgree(f, g, |ClauseOrder|);
    ClausesOfFilters(f);
    forall c | c in ActiveClauses(f)
      ensures ClauseParams(f, c) == ClauseParams(g, c)
    {
      assert AgreeOn(f, g, c);
    }
    ParamsForAgree(f, g, ActiveClauses(f));
  }

  /** Filter values that build the same query select the same rows. */
  lemma SameQuerySameIds(f: Filters, g: Filters, rows: Table, parse: string -> Timestamp)
    requires SameQuery(f, g)
    ensures FilterIds(rows, f, parse) == FilterIds(rows, g, parse)
  {
  }

  /** A filter id as `http_build_query(array_filter(...))` writes it: dropped when `empty()`, else in decimal. */
  function LinkId(v: Option<int>): Option<string> {
    if EmptyInt(v) then None else Some(IntToString(v.value))
  }

  /**
   * The request a "Previous" or "Next" link sends: `paged` set to the target
   * page, followed by `http_build_query(array_filter($filter_values))`.
   * `array_filter` drops every `empty()` value. The search term goes out under
   * the key `search_term`, which the page does not read, and `per_page` is not
   * written at all.
   */
  function PageLink(target: int, f: Filters): ListRequest {
    ListRequest(Some(IntToString(target)), None, None, NullIfEmpty(f.status),
                LinkId(f.categoryId), LinkId(f.authorId), NullIfEmpty(f.dateFrom), NullIfEmpty(f.dateTo))
  }

  /** `per_page` as the request gave it, clamped, or nothing when the request had none. */
  function GivenPerPage(perPage: Option<string>): Option<int> {
    if perPage.Some? then Some(PostsPerPage(perPage, None)) else None
  }

  /** The link the page evidently means to write: `PageLink` plus the search under `search` and the given `per_page`. */
  function IntendedPageLink(target: int, f: Filters, perPage: Option<int>): ListRequest {
    PageLink(target, f).(search := NullIfEmpty(f.searchTerm),
                         perPage := if perPage.Some? then Some(IntToString(perPage.value)) else None)
  }

  /** An `empty()` text filter is left out of a link and reads back as "". */
  lemma TextFilterDropped(v: string)
    requires EmptyStr(v)
    ensures Field(NullIfEmpty(v)) == ""
  {
    assert NullIfEmpty(v) == None;
    TrimEmpty();
  }

  /** A trimmed text filter that is not `empty()` goes into a link as it is and reads back as itself. */
  lemma TextFilterKept(v: string)
    requires !EmptyStr(v) && Trim(v) == v
    ensures Field(NullIfEmpty(v)) == v
  {
    assert NullIfEmpty(v) == Some(v);
  }

  /** A trimmed text filter written into a link reads back as itself, or as "" when it was `empty()`. */
  lemma TextFilterRoundTrip(v: string)
    requires Trim(v) == v
    ensures Field(NullIfEmpty(v)) == if EmptyStr(v) then "" else v
  {
    if EmptyStr(v) {
      TextFilterDropped(v);
    } else {
      TextFilterKept(v);
    }
  }

  /** An id filter written into a link reads back as itself, or as no filter when it was `empty()`. */
  lemma IdFilterRoundTrip(v: Option<int>)
    ensures EmptyInt(IdFilter(LinkId(v))) == EmptyInt(v)
    ensures !EmptyInt(v) ==> IdFilter(LinkId(v)) == v
  {
    if !EmptyInt(v) {
      IntValOfIntToString(v.value);
    }
  }

  /** The premises under which a link read back agrees with the filter values `f` it was built from. */
  predicate CarriesFilters(f: Filters, link: ListRequest) {
    && Trim(f.status) == f.status && Trim(f.dateFrom) == f.dateFrom && Trim(f.dateTo) == f.dateTo
    && link.status == NullIfEmpty(f.status) && link.dateFrom == NullIfEmpty(f.dateFrom)
    && link.dateTo == NullIfEmpty(f.dateTo)
    && link.categoryId == LinkId(f.categoryId) && link.authorId == LinkId(f.authorId)
  }

  /** One clause other than the search: the link read back sets it exactly when `f` does, with the same parameters. */
  lemma LinkAgreesOn(f: Filters, link: ListRequest, c: Clause)
    requires CarriesFilters(f, link) && c != SearchClause
    ensures AgreeOn(f, ParseFilters(link), c)
  {
    match c
    case StatusClause => TextFilterRoundTrip(f.status); EmptyStrCases("");
    case DateFromClause => TextFilterRoundTrip(f.dateFrom); EmptyStrCases("");
    case DateToClause => TextFilterRoundTrip(f.dateTo); EmptyStrCases("");
    case CategoryClause => IdFilterRoundTrip(f.categoryId);
    case AuthorClause => IdFilterRoundTrip(f.authorId);
  }

  /** A link carrying the status, category, author and date filters of `f` reads back agreeing with `f` on them. */
  lemma LinkFiltersAgree(f: Filters, link: ListRequest)
    requires CarriesFilters(f, link)
    ensures forall c :: c != SearchClause ==> AgreeOn(f, ParseFilters(link), c)
  {
    forall c | c != SearchClause
      ensures AgreeOn(f, ParseFilters(link), c)
    {
      LinkAgreesOn(f, link, c);
    }
  }

  /** The text filter values are trimmed, as `trim()` leaves every `$filter_values` string. */
  predicate TrimmedFilters(f: Filters) {
    Trim(f.searchTerm) == f.searchTerm && Trim(f.status) == f.status
    && Trim(f.dateFrom) == f.dateFrom && Trim(f.dateTo) == f.dateTo
  }

  /** The filter values of a parsed request are trimmed. */
  lemma ParsedFiltersTrimmed(q: ListRequest)
    ensures TrimmedFilters(ParseFilters(q))
  {
    TrimIdempotent(q.search.GetOr(""));
    TrimIdempotent(q.status.GetOr(""));
    TrimIdempotent(q.dateFrom.GetOr(""));
    TrimIdempotent(q.dateTo.GetOr(""));
  }

  /** The link as written reads back to filter values that build the query of `f` without its search. */
  lemma PageLinkQuery(f: Filters, target: int)
    requires TrimmedFilters(f)
    ensures SameQuery(ParseFilters(PageLink(target, f)), f.(searchTerm := ""))
  {
    var link := PageLink(target, f);
    var e := f.(searchTerm := "");
    LinkFiltersAgree(e, link);
    assert ParseFilters(link).searchTerm == "" by {
      TrimEmpty();
    }
    assert AgreeOn(e, ParseFilters(link), SearchClause);
    AgreeingFiltersSameQuery(e, ParseFilters(link));
  }

  /** The link as written asks for its target page and for no `per_page`, so the default page size. */
  lemma PageLinkPaging(f: Filters, target: int, configured: Option<int>)
    requires target >= 1
    ensures CurrentPage(PageLink(target, f).paged) == target
    ensures PostsPerPage(PageLink(target, f).perPage, configured) == configured.GetOr(10)
  {
    IntValOfIntToString(target);
  }

  /** The link as written carries no `search`, so its page has no search clause. */
  lemma PageLinkDropsSearch(f: Filters, target: int)
    ensures SearchClause !in ActiveClauses(ParseFilters(PageLink(target, f)))
  {
    var g := ParseFilters(PageLink(target, f));
    assert g.searchTerm == "" by {
      TrimEmpty();
    }
    EmptyStrCases("");
    ClausesOfFilters(g);
  }

  /** The intended link reads back to filter values that build the query of `f`, search included. */
  lemma IntendedLinkQuery(f: Filters, target: int, perPage: Option<int>)
    requires TrimmedFilters(f)
    ensures SameQuery(ParseFilters(IntendedPageLink(target, f, perPage)), f)
  {
    var link := IntendedPageLink(target, f, perPage);
    LinkFiltersAgree(f, link);
    assert AgreeOn(f, ParseFilters(link), SearchClause) by {
      TextFilterRoundTrip(f.searchTerm);
      EmptyStrCases("");
    }
    AgreeingFiltersSameQuery(f, ParseFilters(link));
  }

  /** The given `per_page`, written back in decimal, reads back to the same page size. */
  lemma GivenPerPageLands(perPage: Option<string>, configured: Option<int>)
    ensures PostsPerPage(IntendedPageLink(1, Filters("", "", None, None, "", ""), GivenPerPage(perPage)).perPage, configured)
            == PostsPerPage(perPage, configured)
  {
    if perPage.Some? {
      IntValOfIntToString(PostsPerPage(perPage, None));
    }
  }

  /**
   * The "Previous" and "Next" links as written, read back by the request
   * parsing: they land on their target page, but with the default page size
   * whatever `per_page` the current page had, and without the search. The
   * status, category, author and date filters survive, so the linked page
   * lists the posts of the current filters minus the search.
   */
  lemma PaginationLinksLand(f: Filters, target: int, configured: Option<int>,
                            rows: Table, parse: string -> Timestamp)
    requires TrimmedFilters(f) && target >= 1
    ensures CurrentPage(PageLink(target, f).paged) == target
    ensures PostsPerPage(PageLink(target, f).perPage, configured) == configured.GetOr(10)
    ensures SearchClause !in ActiveClauses(ParseFilters(PageLink(target, f)))
    ensures SameQuery(ParseFilters(PageLink(target, f)), f.(searchTerm := ""))
    ensures FilterIds(rows, ParseFilters(PageLink(target, f)), parse) == FilterIds(rows, f.(searchTerm := ""), parse)
  {
    PageLinkPaging(f, target, configured);
    PageLinkQuery(f, target);
    PageLinkDropsSearch(f, target);
    SameQuerySameIds(ParseFilters(PageLink(target, f)), f.(searchTerm := ""), rows, parse);
  }

  /**
   * The loss the links as written cause: on a page reached with a search and
   * a `per_page` other than the default (`?search=abc&per_page=5`, say), the
   * "Previous" and "Next" links lead to a page without the search clause and
   * with a different page size.
   */
  lemma PageLinkLosesSearchAndPageSize(q: ListRequest, target: int, configured: Option<int>)
    requires target >= 1 && !EmptyStr(Field(q.search))
    requires q.perPage.Some? && PostsPerPage(q.perPage, configured) != configured.GetOr(10)
    ensures SearchClause in ActiveClauses(ParseFilters(q))
    ensures SearchClause !in ActiveClauses(ParseFilters(PageLink(target, ParseFilters(q))))
    ensures PostsPerPage(PageLink(target, ParseFilters(q)).perPage, configured) != PostsPerPage(q.perPage, configured)
  {
    ClausesOfFilters(ParseFilters(q));
    PageLinkPaging(ParseFilters(q), target, configured);
    PageLinkDropsSearch(ParseFilters(q), target);
  }

  /**
   * The links as evidently intended, carrying `search` and the given
   * `per_page` as well, read back to the target page with the same page size
   * and to filter values that build the same query, so they list the same posts.
   */
  lemma IntendedPageLinkLands(f: Filters, perPage: Option<string>, target: int, configured: Option<int>,
                              rows: Table, parse: string -> Timestamp)
    requires TrimmedFilters(f) && target >= 1
    ensures CurrentPage(IntendedPageLink(target, f, GivenPerPage(perPage)).paged) == target
    ensures PostsPerPage(IntendedPageLink(target, f, GivenPerPage(perPage)).perPage, configured)
            == PostsPerPage(perPage, configured)
    ensures SameQuery(ParseFilters(IntendedPageLink(target, f, GivenPerPage(perPage))), f)
    ensures FilterIds(rows, ParseFilters(IntendedPageLink(target, f, GivenPerPage(perPage))), parse)
            == FilterIds(rows, f, parse)
  {
    IntValOfIntToString(target);
    GivenPerPageLands(perPage, configured);
    IntendedLinkQuery(f, target, GivenPerPage(perPage));
    SameQuerySameIds(ParseFilters(IntendedPageLink(target, f, GivenPerPage(perPage))), f, rows, parse);
  }
}
