# A-Z Archive: alphabetic sorting and filtering, modelled in Dafny

The WordPress plugin in `AtoZ.php` adds an alphabetic browsing mode to post-type archives.
The posts are ordered by title. They can be narrowed to titles that start with one letter,
or to a "symbols" bucket of titles that do not start with a letter. A row of 28 links
(`All`, `#`, `a`..`z`) lets a visitor choose between these.

The plugin is four WordPress hook callbacks plus two helpers that build the link row. Each
callback is a pure function of a few flags and strings, and this project models them that way:

- `php.dfy` (module `Php`): the PHP semantics the plugin relies on.
  - `empty()` on the values a query var can hold.
  - ASCII `strtolower`.
  - `substr($s, 0, 1)`.
  - The anchored one-character patterns `/^[^a-z]$/` and `/^[a-z]$/`. This includes PCRE's
    rule that `$` also matches just before a final newline.
- `alpha_filter.dfy` (module `AlphaFilter`): normalisation of the raw `alpha_filter` value
  into `''`, `'sym'` or one lowercase letter.
  - `Selection` is the same three-way choice as a datatype.
  - `Classify` says which selection a raw input denotes.
- `query.dfy` (module `AtoZQuery`): the four callbacks.
  - `set_query_var` gates alphabetic mode and normalises the filter.
  - `change_order` swaps in the title ordering.
  - `filter` prepends one WHERE clause.
  - `add_alpha_var` registers the query var.
  - A WHERE clause is a sequence of parts. The host's existing SQL is an opaque `Sql` part.
    The plugin's clause is `FirstCharNotLetter` or `FirstCharIs(c)`, chosen through the
    fragment datatype `NoClause | SymClause | LetterEq(c)`.
- `nav.dfy` (module `AtoZNav`): `get_post_type_alpha_filters` and the current-item `match`
  of `post_type_alpha_filters`.
  - A link is the pair (archive root, `alpha_filter` value).
  - The result holds the `current` value and the 28 keyed links, in the source's order.

Strings are `seq<char>`, with one `char` per PHP byte. The capability registry
`post_type_supports($type, 'alpha_sort')` is a parameter `supports: string -> bool`.
The context flags `is_main_query()`, `is_search()` and `is_admin()` are a `QueryContext` value.
The archive root and the global `get_query_var('alpha_filter')` are string parameters.

Behaviour worth noting:

- `set_query_var` returns at once when `post_type` is an array (AtoZ.php:69), whatever the
  listed types support.
- `set_query_var` returns at once in the admin area (AtoZ.php:65), so admin list screens
  are neither ordered nor filtered by the plugin.
- The symbols sentinel is the literal `'sym'` (AtoZ.php:79-80, 120, 148).
- A raw filter that PHP's `empty()` treats as empty (`'0'`) is not special to
  `set_query_var`, which normalises it to `'sym'`. It is special to `filter`, which skips it.
- `filter` and `change_order` are taken in their corrected forms, listed under "## Findings".
  `change_order` as written sits beside its corrected form. For `filter`, only the value
  handed to `$wpdb->prepare` is modelled as written, not the WHERE clause it produces.

## Model

| member | source | states |
|---|---|---|
| `Php.ToLower` | AtoZ.php:78 | `strtolower` keeps the length and folds each byte on its own: A–Z become a–z and every other byte is kept |
| `AlphaFilter.Normalise` | AtoZ.php:77-83 | the stored `alpha_filter` is always `''`, `'sym'` or a single lowercase letter, and is `''` exactly when the raw input is `''` |
| `AlphaFilter.NormaliseMeaning` | AtoZ.php:78-80 | the string computation (lowercase, sentinel or non-letter first byte gives `'sym'`, else first byte) equals the value of the selection the input denotes, for every input |
| `AlphaFilter.NormaliseCases` | AtoZ.php:78-80 | iff-form mapping from raw input. `''` stays `''`. `'sym'` in any casing, or a non-letter first byte, gives `'sym'`. Otherwise the result is the lowercased first letter and the rest is dropped |
| `AlphaFilter.ClassifyValue` | AtoZ.php:79-80 | each selection's stored value (`''`, `'sym'`, a letter) denotes that same selection again, so the sentinel is recognised before its first letter `s` |
| `AlphaFilter.NormaliseIdempotent` | AtoZ.php:78-80 | normalising an already normalised value returns it unchanged |
| `AlphaFilter.CanonicalIsFixedPoint` | AtoZ.php:78-80 | a string is `''`, `'sym'` or one lowercase letter if and only if normalisation leaves it unchanged |
| `AlphaFilter.NormaliseIgnoresCase` | AtoZ.php:78 | an input and its lowercase form normalise to the same value |
| `AtoZQuery.SetQueryVar` | AtoZ.php:64-84 | vars are left untouched for a non-main, search or admin query, or an empty, array or unsupported post type. Otherwise `alpha_sort` becomes true and a present `alpha_filter` is replaced by its normalisation, which is canonical. `post_type` never changes |
| `AtoZQuery.SetQueryVarIdempotent` | AtoZ.php:64-84 | running the `pre_get_posts` callback again on its own output changes nothing |
| `AtoZQuery.ChangeOrderAsWritten` | AtoZ.php:94-100 | as written: the title/menu_order/ID ordering on the literal table `wp_posts` when `alpha_sort` is non-empty, the host's ORDER BY otherwise |
| `AtoZQuery.HardCodedTableAsWritten` | AtoZ.php:96 | the ordering as written equals the corrected one under the default prefix `wp_`, and differs from it under every other prefix |
| `AtoZQuery.ChangeOrder` | AtoZ.php:94-100 | corrected table name: the title/menu_order/ID ordering on the prefixed posts table when `alpha_sort` is non-empty, the host's ORDER BY otherwise. This is the if-then-else itself; its meaning across hooks is in `OrderFollowsGate` |
| `AtoZQuery.OrderFollowsGate` | AtoZ.php:94-100 | after `set_query_var` lets a query through, `change_order` yields the title/menu_order/ID ordering on the posts table whatever the host built. A turned-away query with empty `alpha_sort` keeps its ORDER BY |
| `AtoZQuery.WhereFragment` | AtoZ.php:111-125 | corrected guard: with non-empty `alpha_sort`, the symbols clause exactly for `'sym'`, and a letter equality exactly for a one-letter filter, carrying that letter. Empty `alpha_sort`, or a filter that is unset, `''` or `'0'`, gives no clause |
| `AtoZQuery.Filter` | AtoZ.php:108-128 | corrected guard: the original WHERE is always the suffix of the result. At most one clause is prepended: the symbols condition for `SymClause`, the equality on `c` for `LetterEq(c)`, nothing otherwise |
| `AtoZQuery.FilterFollowsSelection` | AtoZ.php:118-127 | on a query let through by `set_query_var`, the clause `filter` adds is the one the raw input denotes: none, symbols, or the selected letter |
| `AtoZQuery.PreparedArgumentAsWritten` | AtoZ.php:123-124 | as written, with non-empty `alpha_sort`, a filter other than `'sym'` reaches `prepare` exactly when it passes `/^[a-z]$/`: a letter, possibly followed by a final newline |
| `AtoZQuery.NewlineLetterReachesPrepare` | AtoZ.php:123-124 | `"a\n"` passes the guard as written and reaches `prepare`, while the corrected guard adds no clause for it |
| `AtoZQuery.GuardsAgreeOnCanonical` | AtoZ.php:120-124 | on normalised values the guard as written and the corrected guard choose the same letter |
| `AtoZQuery.AddAlphaVar` | AtoZ.php:44-48 | `alpha_filter` is appended as the last public query var and the existing names are kept in order |
| `AtoZNav.GetPostTypeAlphaFilters` | AtoZ.php:135-154 | nothing for an unsupported post type. Otherwise the current value and the 28 links `all` (bare root), `#` (`'sym'`), `a`..`z` (own letter), in that order |
| `AtoZNav.NavigationValuesCanonical` | AtoZ.php:147-151 | every link's `alpha_filter` value normalises to itself and distinct links carry distinct values |
| `AtoZNav.Selected` | AtoZ.php:177 | a `current` value that PHP's `empty()` accepts (`''` or `'0'`) is no selection; any other value is selected as it stands |
| `AtoZNav.IsCurrent` | AtoZ.php:185-190 | the `all` link is current exactly when nothing is selected, the `#` link exactly for `'sym'`, and a letter link exactly for its own letter |
| `AtoZNav.ExactlyOneCurrent` | AtoZ.php:177-190 | at most one link is ever marked current. One is, if and only if the current value is empty or normalised: `all` for empty, `#` for `'sym'`, the letter otherwise |
| `AtoZNav.FollowedLinkIsCurrent` | AtoZ.php:185-190 | following any link and normalising its value marks that same link as current and no other |
| `AtoZNav.LabelAsWritten` | AtoZ.php:193 | as written, while nothing is selected every link is labelled with `all_title`, and while something is selected every link, `all` included, is labelled with its own key |
| `AtoZNav.LettersLabelledAllAsWritten` | AtoZ.php:193 | with nothing selected, the `a` link is labelled `All`, the same as the `#` link |
| `AtoZNav.Label` | AtoZ.php:193 | corrected label: `all_title` only for the `all` link, every other link keeps its own key |
| `AtoZNav.LabelsDistinct` | AtoZ.php:193 | under the corrected label the 28 labels are pairwise distinct whenever `all_title` is not `#` or a letter |

## Left out

- Hook registration, the constructor and the singleton `instance()` (AtoZ.php:18, 32-37, 208-212): event wiring with no decision logic.
- `post_type_supports` (AtoZ.php:55-57): a lookup in WordPress's registry. It is the parameter `supports`.
- `$wpdb->prepare` escaping (AtoZ.php:124): a database-layer call. The prepared equality is the structured part `FirstCharIs(c)`, and `c` is a letter a–z by its type under the corrected guard.
- AtoZQuery.WhereFragment: uses the corrected one-letter guard, so `"a\n"` gives no clause where the source hands it to `prepare`. `AtoZQuery.PreparedArgumentAsWritten` is the guard as written.
- AtoZQuery.PreparedArgumentAsWritten: models only the value `filter` as written hands to `prepare`, not the WHERE clause the source builds from it.
- AtoZQuery.Filter: built on `WhereFragment`, so it leaves the WHERE unchanged for `"a\n"` where the source prepends a prepared clause.
- AtoZQuery.ChangeOrder: names the prefixed posts table where the source names `wp_posts`. The two agree under the default prefix `wp_`, and `AtoZQuery.ChangeOrderAsWritten` is the literal as written.
- `$wpdb->posts` inside the WHERE clauses (AtoZ.php:121, 124): the table name sits inside the structured clause parts. Only `ChangeOrder` takes the table prefix, as its parameter `prefix`.
- What MySQL's `LOWER(SUBSTRING(...))` does under a given collation: the WHERE parts are structural and are not evaluated against titles.
- URL building with `get_post_type_archive_link` and `add_query_arg` (AtoZ.php:142, 148-150): a link is the pair (root, filter value).
- HTML assembly, escaping, the optional `title` item and `__()` translation (AtoZ.php:170-182, 192-200): presentation. The label choice of line 193 is kept only for the finding below.
- TypeErrors under `strict_types` when a query var is not a string, for example an integer `post_type` or `alpha_filter`: the model's `post_type` is unset, a name or an array of names, and `alpha_filter` is an optional string.
- `strtolower` before PHP 8.2, which depended on the locale: the model folds ASCII only, as PHP 8.2 and later do.
- Query vars other than `post_type`, `alpha_sort` and `alpha_filter`: the plugin neither reads nor writes them.

## Findings

| source | as written | input that shows it | evidently intended | confidence | as-written member | corrected member |
|---|---|---|---|---|---|---|
| AtoZ.php:123-124 | `preg_match('/^[a-z]$/', $filter)` accepts a letter followed by a final newline, because `$` matches before a trailing newline. The two-byte value then goes to `prepare`, and the equality compares a one-character `SUBSTRING` with a two-character string, so it selects no post. Only queries that `set_query_var` did not normalise are affected: a secondary query given `alpha_sort` and a raw `alpha_filter` | `alpha_sort = true`, `alpha_filter = "a\n"` | accept exactly one lowercase letter (`/^[a-z]\z/` or the `D` modifier) | medium, not executed | `AtoZQuery.PreparedArgumentAsWritten`, `AtoZQuery.NewlineLetterReachesPrepare` | `AtoZQuery.WhereFragment` |
| AtoZ.php:96 | the ORDER BY names the table `wp_posts` literally, while `filter` uses `$wpdb->posts` (lines 121, 124). Under any other table prefix the ORDER BY names a table the query does not select from | table prefix `wp2_`, with `alpha_sort` set | qualify the columns with `$wpdb->posts` | medium, not executed | `AtoZQuery.ChangeOrderAsWritten`, `AtoZQuery.HardCodedTableAsWritten` | `AtoZQuery.ChangeOrder`, `AtoZQuery.OrderFollowsGate` |
| AtoZ.php:193 | the label is `empty($current) ? all_title : $title`, so with nothing selected all 28 links read `All`, and with a selection the `all` link reads `all` | `alpha_filter` unset, so `current` is `''` | `all_title` for the `all` link only, every other link its own key | medium, not executed | `AtoZNav.LabelAsWritten`, `AtoZNav.LettersLabelledAllAsWritten` | `AtoZNav.Label`, `AtoZNav.LabelsDistinct` |
