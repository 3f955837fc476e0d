/**
 * The legacy-URL redirect table and the two routes that consult it:
 * `/{slug}.html` and `/{slug}`. The table (loaded from `redirects.json`) is a
 * parameter.
 */
module Redirects {
  import opened Wrappers

  /** `redirects.get(key, None)`. */
  function Get(redirects: map<string, string>, key: string): Option<string> {
    if key in redirects then Some(redirects[key]) else None
  }

  /** Python truthiness of a `str` or `None`. */
  predicate Truthy(v: Option<string>) {
    v.Some? && v.value != ""
  }

  /** Python's `a or b`: `a` when truthy, `b` otherwise. */
  function Or(a: Option<string>, b: Option<string>): Option<string> {
    if Truthy(a) then a else b
  }

  /** What the `/{slug}.html` route returns: a `RedirectResponse`, or the
      `HTTPException(404)` object. */
  datatype HtmlRoute = RedirectTo(url: string) | NotFound

  /** `url = redirects.get(slug, None) or redirects.get(slug + ".html", None)`,
      then a redirect when `url is not None`, else `HTTPException(404)`. The exact key wins
      when its value is non-empty; otherwise the `.html` key decides, and
      when it is present its value is used even if it is `""`. */
  function ResolveHtml(redirects: map<string, string>, slug: string): (r: HtmlRoute)
    ensures slug in redirects && redirects[slug] != "" ==> r == RedirectTo(redirects[slug])
    ensures !(slug in redirects && redirects[slug] != "") && slug + ".html" in redirects ==>
      r == RedirectTo(redirects[slug + ".html"])
    ensures r == NotFound <==> !(slug in redirects && redirects[slug] != "") && slug + ".html" !in redirects
  {
    var url := Or(Get(redirects, slug), Get(redirects, slug + ".html"));
    if url.Some? then RedirectTo(url.value) else NotFound
  }

  /** What the `/{slug}` route answers: a redirect, or the markdown page. */
  datatype SlugRoute<P> = Redirect(url: string) | Page(page: P)

  /** `redirects_url = redirects.get(slug, None)`; a redirect when it `is not
      None`, otherwise `markdown_page(slug)`. `markdownPage` stands for
      `markdown_page`, whose body is not part of this model. */
  function ResolveSlug<P>(redirects: map<string, string>, slug: string, markdownPage: string -> P): (r: SlugRoute<P>)
    ensures r.Redirect? <==> slug in redirects
    ensures slug in redirects ==> r.url == redirects[slug]
    ensures slug !in redirects ==> r.page == markdownPage(slug)
  {
    var url := Get(redirects, slug);
    if url.Some? then Redirect(url.value) else Page(markdownPage(slug))
  }

  /** When the exact key maps to a non-empty URL, both routes redirect there. */
  lemma RoutesAgreeOnExactKey<P>(redirects: map<string, string>, slug: string, markdownPage: string -> P)
    requires slug in redirects && redirects[slug] != ""
    ensures ResolveHtml(redirects, slug) == RedirectTo(redirects[slug])
    ensures ResolveSlug(redirects, slug, markdownPage) == Redirect(redirects[slug])
  {
  }

  /** An exact key mapped to `""`: `/{slug}` still redirects (to `""`), since
      it tests `is not None`; `/{slug}.html` falls through to the `.html`
      key and, without one, returns `HTTPException(404)`. */
  lemma EmptyMappingDiverges<P>(redirects: map<string, string>, slug: string, markdownPage: string -> P)
    requires slug in redirects && redirects[slug] == ""
    ensures ResolveSlug(redirects, slug, markdownPage) == Redirect("")
    ensures slug + ".html" !in redirects ==> ResolveHtml(redirects, slug) == NotFound
    ensures slug + ".html" in redirects ==> ResolveHtml(redirects, slug) == RedirectTo(redirects[slug + ".html"])
  {
  }

  /** Only `/{slug}.html` tries the `.html` key: with just `slug + ".html"`
      in the table, `/{slug}` renders the markdown page instead. */
  lemma HtmlFallbackOnlyOnHtmlRoute<P>(redirects: map<string, string>, slug: string, markdownPage: string -> P)
    requires slug !in redirects && slug + ".html" in redirects
    ensures ResolveHtml(redirects, slug) == RedirectTo(redirects[slug + ".html"])
    ensures ResolveSlug(redirects, slug, markdownPage) == Page(markdownPage(slug))
  {
  }

  /** A table entry `{"old-post": "https://example.com/new"}` sends
      `/old-post` and `/old-post.html` to the new address. */
  lemma OldPostExample<P>(markdownPage: string -> P)
    ensures ResolveSlug(map["old-post" := "https://example.com/new"], "old-post", markdownPage)
      == Redirect("https://example.com/new")
    ensures ResolveHtml(map["old-post" := "https://example.com/new"], "old-post")
      == RedirectTo("https://example.com/new")
  {
  }
}
