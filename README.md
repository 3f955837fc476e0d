# Blog request logic: search, redirects and listings

This project models the selection and lookup rules inside the route handlers
of a small FastHTML blog (`main.py`). It covers:

- the `/search?q=` handler: its matching helper `_s`, the comprehension that
  keeps matching posts, and the choice of message above the results;
- the two redirect routes, `/{slug}.html` and `/{slug}`, over the legacy
  redirect table;
- the tag page `/tags/{slug}`, the home page's "recent" and "popular"
  sections, and the nested route `/{slug_1}/{slug_2}`.

Everything is pure. Post metadata is a `seq<Post>` standing for whatever
`list_posts()` returns. The redirect table is a `map<string, string>`.
`markdown_page` is a function parameter `string -> P`. Python's `str.lower`
is modelled on ASCII letters. `str.strip` removes the characters Python's
`str.isspace` accepts.

Modules:

- `Wrappers` (wrappers.dfy): `Option`, for `dict.get(key, None)`.
- `Text` (text.dfy): lower-casing, stripping, the substring test `q in s`,
  `" ".join`, and decimal rendering.
- `Seqs` (seqs.dfy): the filtering comprehension, how it preserves order,
  and how many elements it keeps; `xs[:n]`.
- `Posts` (posts.dfy): the post record, the search fields, the card that
  `blog_post(...)` is built from, and the tag test.
- `Search` (search.dfy): the `/search` handler.
- `Redirects` (redirects.dfy): the two redirect routes.
- `Pages` (pages.dfy): the tag page, home page and nested route.

Points where the code's behaviour is easy to misread:

- A query that looks empty is not the same as `""`. Only the literal `""`
  gives no results. A whitespace-only query passes `if q:` and strips to
  `""`. Since `""` occurs in every string, every post is returned
  (`Search.WhitespaceQueryMatchesAll`).
- Only the `/{slug}.html` route falls back to the `slug + ".html"` key.
  `/{slug}` looks up the exact key only, and an exact key mapped to `""`
  still redirects there (`Redirects.EmptyMappingDiverges`).
- In `/{slug}.html`, suppose the exact key maps to `""` and the `.html` key
  is present with value `""`. The code then redirects to `""`, because `or`
  returns its second operand and the test is `is not None`. An absent
  `.html` key makes the handler return `HTTPException(404)`.
- Tags are compared by exact equality only when they are a list. When
  `tags` is a plain string, `slug in tags` is a substring test
  (`Pages.TagStringIsSubstring`).

## Model

| member | source | states |
|---|---|---|
| `Text.Strip` | main.py:122 | `strip()` never leaves leading or trailing whitespace |
| `Text.StripSlice` | main.py:122 | what `strip()` leaves is a contiguous slice of the input, and everything cut off before and after it is whitespace |
| `Text.StripEmptyIff` | main.py:122 | `strip()` gives `""` exactly when the string is all whitespace |
| `Text.ContainsIff` | main.py:122 | the computed `q in s` holds exactly when `q` occurs at some offset of `s` (both directions) |
| `Text.JoinAdjacent` | main.py:120-121 | in `" ".join(items)`, two adjacent items with one space between them appear side by side |
| `Text.JoinItem` | main.py:120-121 | every item of the list appears in the joined string |
| `Text.NormalizedInfix` | main.py:122 | a query that occurs in a string still occurs in it after both are lower-cased and stripped |
| `Text.StrippedInfix` | main.py:122 | a stripped string that occurs in `s` still occurs once `s` is stripped |
| `Text.NormalizeKeepsInfix` | main.py:122 | an occurrence that starts and ends with non-whitespace is still found after lower-casing and stripping |
| `Text.DecimalRoundTrip` | main.py:130 | the count rendered in "Found N results" reads back as N |
| `Seqs.Filter` | main.py:126-127 | the comprehension keeps an element exactly when it is in the input and satisfies the condition |
| `Seqs.FilterPositions` | main.py:126-127 | the kept elements are the input's elements at strictly increasing positions, and those positions are exactly the ones whose element satisfies the condition |
| `Seqs.FilterCount` | main.py:110 | the length of the result is the number of input positions that satisfy the condition |
| `Seqs.FilterAll` | main.py:126-127 | a condition true of every element keeps the whole list unchanged |
| `Posts.FieldTextDefaults` | main.py:119-121 | `obj.get(name, "")`: a missing description, content or tags field is searched as `""`; title and a plain-string tags value are searched as they are |
| `Posts.TagListText` | main.py:119-121 | a tag list is searched as one string in which every tag, and every two adjacent tags with a space between them, occur |
| `Search.MatchesIff` | main.py:118-122 | `any(_s(...))` holds exactly when the lower-cased, stripped query occurs in at least one lower-cased, stripped search field |
| `Search.FieldsMatch` | main.py:127 | `any` over the four names is a disjunction over title, description, content and tags |
| `Search.Hits` | main.py:124-127 | no results for `q == ""`; otherwise a post is a result exactly when it is listed and matches; the result is empty exactly when `q` is empty or nothing matches |
| `Search.HitIff` | main.py:118-127 | a post is a result exactly when `q` is non-empty and the normalized query occurs in its normalized title, description (missing = `""`), content (missing = `""`) or tag text |
| `Search.HitsInOrder` | main.py:126-127 | the results are an order-preserving subsequence of the post list, keeping exactly the matching positions |
| `Search.FoundCountIsMatchCount` | main.py:126-130 | the number of results is the number of positions holding a matching post |
| `Search.WhitespaceQueryMatchesAll` | main.py:122-127 | a non-empty, all-whitespace query returns exactly the post list, in order |
| `Search.AdjacentTagsMatch` | main.py:120-122 | a query whose normalized form occurs in two adjacent tags joined by a space (lower-cased) matches the post, whatever whitespace surrounds the tags |
| `Search.TitleSubstringHits` | main.py:118-127 | a non-empty query that occurs in a listed post's raw title finds that post |
| `Search.SearchView` | main.py:124-134 | an empty query shows no messages and no results; hits give the heading plus the count of shown results; a non-empty query with no match gives only "No results found" |
| `Search.EmptyQuery` | main.py:124-125 | the empty query yields no results and an empty page |
| `Redirects.ResolveHtml` | main.py:150-155 | a non-empty exact mapping wins; otherwise a present `.html` key decides, even when it maps to `""`; `HTTPException(404)` exactly when neither applies |
| `Redirects.ResolveSlug` | main.py:157-163 | a redirect exactly when the slug is a key, to its value; otherwise the markdown page for the unchanged slug |
| `Redirects.RoutesAgreeOnExactKey` | main.py:152-162 | with a non-empty exact mapping, both routes redirect to it |
| `Redirects.EmptyMappingDiverges` | main.py:152-162 | an exact key mapped to `""`: `/{slug}` redirects to `""`; `/{slug}.html` falls through to the `.html` key, or returns `HTTPException(404)` without one |
| `Redirects.HtmlFallbackOnlyOnHtmlRoute` | main.py:152-163 | only `/{slug}.html` uses the `.html` key; `/{slug}` renders the markdown page |
| `Redirects.OldPostExample` | main.py:152-162 | `{"old-post": "https://example.com/new"}` sends `/old-post` and `/old-post.html` there |
| `Pages.TagPage` | main.py:107-111 | the reported count is the number of listed cards; the cards are those of the tagged posts; every listed post carrying the tag is shown |
| `Pages.TagCount` | main.py:107-110 | the reported count is the number of positions whose post carries the tag |
| `Pages.TagPostsInOrder` | main.py:107 | the tagged posts are an order-preserving subsequence of the list, keeping exactly the tagged positions |
| `Pages.TagListIsExact` | main.py:107 | with a tag list, a post carries the tag exactly when some list item equals the slug |
| `Pages.TagStringIsSubstring` | main.py:107 | with a plain-string `tags` value, a post carries the tag exactly when the slug occurs in the string |
| `Pages.HomePage` | main.py:43-49 | the recent section has `min(3, len(posts))` cards, the cards of the first posts in order; the popular section is the cards of the flagged posts |
| `Pages.PopularInOrder` | main.py:44 | the popular posts are exactly the flagged ones, in their order |
| `Pages.ResolveNested` | main.py:165-168 | the nested route renders `markdown_page` of `NestedPath(slug1, slug2)`, which splits back into the two segments; the redirect table is not an input |
| `Pages.NestedPathSplits` | main.py:165-168 | the path passed to `markdown_page` splits back at its first `/` into the two route segments |
| `Pages.NestedPathInjective` | main.py:165-168 | distinct segment pairs reach distinct markdown paths |

## Left out

- Routing and dispatch, HTML component construction, headers and CDN links (main.py:15-28, 38, 148, 170) are framework calls with no logic of their own. The model therefore returns values (cards, messages, route answers) instead of HTML.
- Reading `redirects.json` (main.py:13) is file I/O. The table is a parameter.
- Feed serving with `FileResponse` (main.py:144-146) is file I/O.
- The `/posts` page and its years-since-2005 figure (main.py:58-70) use the wall clock and floating-point rounding, and are outside the modelled handlers.
- `not_found` setting `response.status` (main.py:30-32) is framework plumbing.
- The single-post page and the tag index (main.py:72-102) only call `get_post` and `list_tags`.
- `list_posts`, `get_post`, `list_tags` and `markdown_page` come from `contents.py`, which is not part of this model. Posts are an input sequence, and `markdown_page` is an uninterpreted function parameter.
- `Redirects.ResolveHtml`: `NotFound` stands for the `HTTPException(404)` object, which `main.py:155` returns rather than raises. The model does not say which status the framework sends for a returned exception object.
- Redirect values are strings. A JSON `null` value cannot be held in a `map<string, string>`. In the source, `.get` gives `None` for such a key, so `/{slug}` would render the markdown page and `/{slug}.html` would try the `.html` key.
- `Pages.HomePage`: takes one post sequence for both sections. The source calls `list_posts()` twice (main.py:43-44), so the model assumes both calls give the same list.
- `Text.Lower`: maps only ASCII `A`-`Z`. Python's `str.lower` follows full Unicode case mapping, which can also change a string's length.
- Front-matter values of unexpected types are not modelled. This covers a `None` description, a non-string in a tag list, and a non-boolean `popular`. In the source these either raise an exception or rely on Python truthiness.
- `Search.SearchView`: checks the messages as a `Message` datatype. `Search.MessageText` gives their wording, but no lemma is proved about that wording beyond `Text.DecimalRoundTrip`.
