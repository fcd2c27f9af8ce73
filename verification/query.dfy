/**
 The query hooks of AtoZ.php: `set_query_var` (pre_get_posts), `change_order`
 (posts_orderby), `filter` (posts_where) and `add_alpha_var` (query_vars).

 A query is reduced to the three query vars the plugin reads or writes, plus the context
 flags `set_query_var` consults. The capability registry `post_type_supports` is a
 parameter. The WHERE clause is a sequence of parts: the SQL the host already built is an
 opaque `Sql` part, and the plugin's clause is one of two structured parts, so escaping is
 not modelled but the letter handed to `$wpdb->prepare` is.
 */
module AtoZQuery {
  import opened Optional
  import opened Php
  import opened AlphaFilter

  /** The `post_type` query var: unset or null, one post type name, or an array of names. */
  datatype PostTypeVar = Unset | Name(name: string) | Names(names: seq<string>)

  /** The query vars the plugin reads or writes. */
  datatype QueryVars = QueryVars(postType: PostTypeVar, alphaSort: Value, alphaFilter: Option<string>)

  /** `is_main_query()`, `is_search()` and the global `is_admin()`. */
  datatype QueryContext = QueryContext(isMainQuery: bool, isSearch: bool, isAdmin: bool)

  /** `empty($query->query_vars['post_type'])`. */
  predicate PostTypeEmpty(p: PostTypeVar) {
    match p
    case Unset => true
    case Name(n) => EmptyString(n)
    case Names(ns) => |ns| == 0
  }

  /**
   The `pre_get_posts` callback. Outside a main, non-search, front-end query, or when
   `post_type` is empty, an array, or a type without alpha_sort support, nothing changes.
   Otherwise `alpha_sort` becomes true and a present `alpha_filter` is normalised.
   */
  function SetQueryVar(ctx: QueryContext, supports: string -> bool, q: QueryVars): (r: QueryVars)
    ensures !ctx.isMainQuery || ctx.isSearch || ctx.isAdmin ==> r == q
    ensures q.postType.Unset? || q.postType.Names? ==> r == q
    ensures q.postType.Name? && (EmptyString(q.postType.name) || !supports(q.postType.name)) ==> r == q
    ensures r.postType == q.postType
    ensures r.alphaFilter.Some? <==> q.alphaFilter.Some?
    ensures r != q ==> r.alphaSort == Bool(true) && (r.alphaFilter.Some? ==> IsCanonical(r.alphaFilter.value))
    ensures ctx.isMainQuery && !ctx.isSearch && !ctx.isAdmin && q.postType.Name?
            && !EmptyString(q.postType.name) && supports(q.postType.name) ==>
              r.alphaSort == Bool(true) && (r.alphaFilter.Some? ==> IsCanonical(r.alphaFilter.value))
    ensures AlphaModeApplies(ctx, supports, q.postType) && q.alphaFilter.Some? ==>
              r.alphaFilter == Some(Normalise(q.alphaFilter.value))
  {
    if !ctx.isMainQuery || ctx.isSearch || ctx.isAdmin then q
    else if PostTypeEmpty(q.postType) || q.postType.Names? || !supports(q.postType.name) then q
    else
      var sorted := q.(alphaSort := Bool(true));
      match q.alphaFilter
      case None => sorted
      case Some(raw) => sorted.(alphaFilter := Some(Normalise(raw)))
  }

  /** Whether the gates of `set_query_var` let alphabetic mode through. */
  predicate AlphaModeApplies(ctx: QueryContext, supports: string -> bool, p: PostTypeVar) {
    ctx.isMainQuery && !ctx.isSearch && !ctx.isAdmin
    && p.Name? && !EmptyString(p.name) && supports(p.name)
  }

  /** Running the hook a second time on its own output changes nothing. */
  lemma SetQueryVarIdempotent(ctx: QueryContext, supports: string -> bool, q: QueryVars)
    ensures SetQueryVar(ctx, supports, SetQueryVar(ctx, supports, q)) == SetQueryVar(ctx, supports, q)
  {
    if AlphaModeApplies(ctx, supports, q.postType) && q.alphaFilter.Some? {
      NormaliseIdempotent(q.alphaFilter.value);
    }
  }

  /** `$wpdb->posts`: the posts table under the site's table prefix. */
  function PostsTable(prefix: string): string {
    prefix + "posts"
  }

  /** Title, then menu_order, then ID, each column qualified by `table`. */
  function TitleOrderOn(table: string): string {
    table + ".post_title ASC, " + table + ".menu_order ASC, " + table + ".ID "
  }

  /**
   The ORDER BY that `change_order` swaps in as written:
   "wp_posts.post_title ASC, wp_posts.menu_order ASC, wp_posts.ID ".
   */
  const TitleOrder: string := TitleOrderOn("wp_posts")

  /** An ordering on `table` begins with that table's name, and its length fixes the name's length. */
  lemma TitleOrderOnShape(table: string)
    ensures TitleOrderOn(table)[..|table|] == table
    ensures |TitleOrderOn(table)| == 3 * |table| + |".post_title ASC, .menu_order ASC, .ID "|
  {
    var r := TitleOrderOn(table);
    assert r == table + (".post_title ASC, " + table + ".menu_order ASC, " + table + ".ID ");
  }

  /** The `posts_orderby` callback as written: the literal `wp_posts` ordering whenever `alpha_sort` is non-empty. */
  function ChangeOrderAsWritten(orderBy: string, alphaSort: Value): (r: string)
    ensures !Empty(alphaSort) ==> r == TitleOrderOn("wp_posts")
    ensures Empty(alphaSort) ==> r == orderBy
  {
    if !Empty(alphaSort) then TitleOrder else orderBy
  }

  /**
   The literal names `wp_posts` whatever the table prefix: under any other prefix the
   ORDER BY names a table the query does not select from, while `filter` uses
   `$wpdb->posts`. Under the default prefix `wp_` it is the intended ordering.
   */
  lemma HardCodedTableAsWritten(prefix: string)
    ensures ChangeOrderAsWritten("", Bool(true)) == ChangeOrder("", Bool(true), "wp_")
    ensures prefix != "wp_" ==>
              ChangeOrderAsWritten("", Bool(true)) != ChangeOrder("", Bool(true), prefix)
  {
    assert PostsTable("wp_") == "wp_posts";
    var table := PostsTable(prefix);
    TitleOrderOnShape(table);
    TitleOrderOnShape("wp_posts");
    if prefix != "wp_" {
      if |prefix| != 3 {
        assert |TitleOrderOn(table)| != |TitleOrderOn("wp_posts")|;
      } else {
        var k := if prefix[0] != 'w' then 0 else if prefix[1] != 'p' then 1 else 2;
        if k == 2 {
          assert prefix == ['w', 'p', prefix[2]];
        }
        assert TitleOrderOn(table)[k] == table[k] == prefix[k];
        assert TitleOrderOn("wp_posts")[k] == "wp_"[k];
      }
    }
  }

  /**
   The `posts_orderby` callback with the posts table taken from the site's prefix, as
   `filter` does: the title ordering whenever `alpha_sort` is non-empty, the host's
   ORDER BY otherwise.
   */
  function ChangeOrder(orderBy: string, alphaSort: Value, prefix: string): (r: string)
    ensures !Empty(alphaSort) ==> r == TitleOrderOn(PostsTable(prefix))
    ensures Empty(alphaSort) ==> r == orderBy
  {
    if !Empty(alphaSort) then TitleOrderOn(PostsTable(prefix)) else orderBy
  }

  /**
   Ordering across the two hooks: a query let through by `set_query_var` is ordered by
   title whatever ORDER BY the host built; a query it turned away keeps the host's ordering
   unless some other code had already set `alpha_sort`.
   */
  lemma OrderFollowsGate(ctx: QueryContext, supports: string -> bool, q: QueryVars, orderBy: string, prefix: string)
    ensures AlphaModeApplies(ctx, supports, q.postType) ==>
              ChangeOrder(orderBy, SetQueryVar(ctx, supports, q).alphaSort, prefix) == TitleOrderOn(PostsTable(prefix))
    ensures !AlphaModeApplies(ctx, supports, q.postType) && Empty(q.alphaSort) ==>
              ChangeOrder(orderBy, SetQueryVar(ctx, supports, q).alphaSort, prefix) == orderBy
  {
  }

  /** The clause `filter` prepends: none, the symbols bucket, or a first-letter equality. */
  datatype Fragment = NoClause | SymClause | LetterEq(c: LowerLetter)

  /**
   A part of a WHERE clause: SQL text the plugin does not look into, the condition
   "lowercased first character NOT IN ('a'..'z')", or "lowercased first character = c"
   with `c` passed to `$wpdb->prepare` as a parameter.
   */
  datatype WherePart = Sql(text: string) | FirstCharNotLetter | FirstCharIs(c: LowerLetter)

  /** The WHERE text a fragment contributes (`$where_add`). */
  function Parts(f: Fragment): seq<WherePart> {
    match f
    case NoClause => []
    case SymClause => [FirstCharNotLetter]
    case LetterEq(c) => [FirstCharIs(c)]
  }

  /**
   The clause chosen at AtoZ.php:114-125 from `alpha_sort` and `alpha_filter` (an unset
   filter reads as `''`). The letter guard accepts exactly one lowercase letter; see
   `PreparedArgumentAsWritten` for the guard as written.
   */
  function WhereFragment(sort: Value, filter: Option<string>): (f: Fragment)
    ensures f.SymClause? <==> !Empty(sort) && filter == Some(Sym)
    ensures f.LetterEq? <==> !Empty(sort) && filter.Some? && IsSingleLetter(filter.value)
    ensures f.LetterEq? ==> filter == Some([f.c])
    ensures Empty(sort) || EmptyString(filter.GetOr("")) ==> f == NoClause
  {
    var value := filter.GetOr("");
    if Empty(sort) || EmptyString(value) then NoClause
    else if value == Sym then SymClause
    else if IsSingleLetter(value) then assert value == [value[0]]; LetterEq(value[0])
    else NoClause
  }

  /**
   The `posts_where` callback, with the corrected letter guard of `WhereFragment`: the existing
   WHERE is kept whole as the suffix of the result, with at most one clause in front of it,
   namely the symbols condition or the equality on the chosen letter.
   */
  function Filter(where: seq<WherePart>, sort: Value, filter: Option<string>): (r: seq<WherePart>)
    ensures |where| <= |r| <= |where| + 1
    ensures r[|r| - |where|..] == where
    ensures r == where <==> WhereFragment(sort, filter) == NoClause
    ensures |r| == |where| + 1 ==> !r[0].Sql?
    ensures WhereFragment(sort, filter) == SymClause ==> r == [FirstCharNotLetter] + where
    ensures WhereFragment(sort, filter).LetterEq? ==> r == [FirstCharIs(WhereFragment(sort, filter).c)] + where
  {
    Parts(WhereFragment(sort, filter)) + where
  }

  /**
   The whole pipeline on a main query: once `set_query_var` has let it through, the clause
   `filter` adds is decided by what the raw `alpha_filter` denotes — none for an absent or
   empty filter, the symbols bucket, or the selected letter.
   */
  lemma FilterFollowsSelection(ctx: QueryContext, supports: string -> bool, q: QueryVars)
    requires AlphaModeApplies(ctx, supports, q.postType)
    ensures var r := SetQueryVar(ctx, supports, q);
            WhereFragment(r.alphaSort, r.alphaFilter) ==
              if q.alphaFilter.None? then NoClause else FragmentOf(Classify(q.alphaFilter.value))
  {
    if q.alphaFilter.Some? {
      NormaliseMeaning(q.alphaFilter.value);
    }
  }

  /** The clause that stands for a selection. */
  function FragmentOf(sel: Selection): Fragment {
    match sel
    case NoFilter => NoClause
    case Symbols => SymClause
    case Letter(c) => LetterEq(c)
  }

  /**
   `filter` as written at AtoZ.php:114-125, reduced to the value it hands to
   `$wpdb->prepare`: `/^[a-z]$/` also accepts a letter followed by a final newline.
   */
  function PreparedArgumentAsWritten(sort: Value, filter: Option<string>): (arg: Option<string>)
    ensures arg.Some? ==> !Empty(sort) && arg == filter && MatchesLetterPattern(arg.value)
    ensures !Empty(sort) && filter.Some? && MatchesLetterPattern(filter.value) ==> arg == filter
  {
    var value := filter.GetOr("");
    if Empty(sort) || EmptyString(value) || value == Sym then None
    else if MatchesLetterPattern(value) then Some(value)
    else None
  }

  /**
   The guard as written lets a two-byte value through to `prepare`; the resulting equality
   compares a one-character SUBSTRING with a two-character string and selects nothing.
   */
  lemma NewlineLetterReachesPrepare()
    ensures PreparedArgumentAsWritten(Bool(true), Some("a\n")) == Some("a\n")
    ensures !IsSingleLetter("a\n")
    ensures WhereFragment(Bool(true), Some("a\n")) == NoClause
  {
  }

  /**
   On normalised values the two guards agree: `set_query_var` keeps the newline case away
   from the main query, and only the corrected guard closes it for other queries.
   */
  lemma GuardsAgreeOnCanonical(sort: Value, v: string)
    requires IsCanonical(v)
    ensures PreparedArgumentAsWritten(sort, Some(v)).Some? <==> WhereFragment(sort, Some(v)).LetterEq?
    ensures WhereFragment(sort, Some(v)).LetterEq? ==>
              PreparedArgumentAsWritten(sort, Some(v)) == Some([WhereFragment(sort, Some(v)).c])
  {
  }

  /** The name of the public query var the plugin registers. */
  const AlphaFilterVar: string := "alpha_filter"

  /** The `query_vars` callback: `alpha_filter` is appended and the other names are kept in order. */
  function AddAlphaVar(vars: seq<string>): (r: seq<string>)
    ensures |r| == |vars| + 1
    ensures r[..|vars|] == vars
    ensures r[|vars|] == AlphaFilterVar
  {
    vars + [AlphaFilterVar]
  }
}
