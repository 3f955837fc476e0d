/**
 * The `/search?q=` handler: which posts match a query, in which order, and
 * which message heads the results.
 */
module Search {
  import opened Text
  import opened Seqs
  import opened Posts
  import opened Wrappers

  /** `s.lower().strip()`. */
  function Normalize(s: string): string {
    Strip(Lower(s))
  }

  /** The handler's helper `_s(obj, name, q)`. */
  function FieldMatches(p: Post, f: Field, q: string): bool {
    Contains(Normalize(FieldText(p, f)), Normalize(q))
  }

  /** `any(_s(x, name, q) for name in [...])`: the normalized query occurs
      in at least one normalized search field. */
  function Matches(p: Post, q: string): bool {
    exists f :: f in SearchFields && FieldMatches(p, f, q)
  }

  /** The computed match and the occurrence it stands for agree. */
  lemma MatchesIff(p: Post, q: string)
    ensures Matches(p, q) <==> exists f :: f in SearchFields && IsInfix(Normalize(q), Normalize(FieldText(p, f)))
  {
    forall f | f in SearchFields {
      ContainsIff(Normalize(FieldText(p, f)), Normalize(q));
    }
  }

  /** The posts the handler lists: none when `q` is `""` (the `if q:`
      guard), otherwise the matching posts of `posts` in their order. */
  function Hits(posts: seq<Post>, q: string): (r: seq<Post>)
    ensures q == "" ==> r == []
    ensures forall p :: p in r <==> q != "" && p in posts && Matches(p, q)
    ensures r == [] <==> q == "" || forall p :: p in posts ==> !Matches(p, q)
  {
    if q == "" then [] else
      var r := Filter(posts, Matcher(q));
      assert r != [] ==> r[0] in r;
      r
  }

  /** The comprehension's condition, as a predicate on posts. */
  function Matcher(q: string): Post -> bool {
    p => Matches(p, q)
  }

  /** The messages above the results. */
  datatype Message =
    | ResultsHeading(query: string)   // H2 "Search results on '{q}'"
    | FoundCount(count: nat)          // P "Found {len(posts)} results"
    | NoResultsFound                  // P "No results found"

  function MessageText(m: Message): string {
    match m
    case ResultsHeading(q) => "Search results on '" + q + "'"
    case FoundCount(n) => "Found " + Decimal(n) + " results"
    case NoResultsFound => "No results found"
  }

  /** What the search page shows below the form. */
  datatype SearchPage = SearchPage(messages: seq<Message>, results: seq<Card>)

  /** The handler: results, then the message chosen by `if posts: ...
      elif q: ... else: ...`. */
  function SearchView(posts: seq<Post>, q: string): (r: SearchPage)
    ensures r.results == Cards(Hits(posts, q))
    ensures q == "" ==> r == SearchPage([], [])
    ensures q != "" && (exists p :: p in posts && Matches(p, q)) ==>
      r.messages == [ResultsHeading(q), FoundCount(|r.results|)] && r.results != []
    ensures q != "" && (forall p :: p in posts ==> !Matches(p, q)) ==>
      r == SearchPage([NoResultsFound], [])
  {
    var cards := Cards(Hits(posts, q));
    var messages :=
      if cards != [] then [ResultsHeading(q), FoundCount(|cards|)]
      else if q != "" then [NoResultsFound]
      else [];
    SearchPage(messages, cards)
  }

  /** An empty query examines no post and shows nothing. */
  lemma EmptyQuery(posts: seq<Post>)
    ensures Hits(posts, "") == []
    ensures SearchView(posts, "") == SearchPage([], [])
  {
  }

  /** A post is a hit exactly when the query is non-empty and, lower-cased
      and stripped, occurs in one of its four fields, each lower-cased and
      stripped. */
  lemma HitIff(posts: seq<Post>, q: string, p: Post)
    ensures p in Hits(posts, q) <==>
      && q != ""
      && p in posts
      && (|| IsInfix(Normalize(q), Normalize(p.title))
          || IsInfix(Normalize(q), Normalize(p.description.GetOr("")))
          || IsInfix(Normalize(q), Normalize(p.content.GetOr("")))
          || IsInfix(Normalize(q), Normalize(FieldText(p, TagsField))))
  {
    FieldsMatch(p, q);
    ContainsIff(Normalize(FieldText(p, TitleField)), Normalize(q));
    ContainsIff(Normalize(FieldText(p, DescriptionField)), Normalize(q));
    ContainsIff(Normalize(FieldText(p, ContentField)), Normalize(q));
    ContainsIff(Normalize(FieldText(p, TagsField)), Normalize(q));
  }

  /** `any` over the four field names is a disjunction over the four fields. */
  lemma FieldsMatch(p: Post, q: string)
    ensures Matches(p, q) <==>
      FieldMatches(p, TitleField, q) || FieldMatches(p, DescriptionField, q) ||
      FieldMatches(p, ContentField, q) || FieldMatches(p, TagsField, q)
  {
    if Matches(p, q) {
      var f :| f in SearchFields && FieldMatches(p, f, q);
      match f
      case TitleField =>
      case DescriptionField =>
      case ContentField =>
      case TagsField =>
    } else {
      assert SearchFields[0] == TitleField && SearchFields[1] == DescriptionField;
      assert SearchFields[2] == ContentField && SearchFields[3] == TagsField;
    }
  }

  /** The hits are the posts that match, kept in the order of `posts`: the
      positions kept are exactly those whose post matches. */
  lemma HitsInOrder(posts: seq<Post>, q: string)
    requires q != ""
    ensures IsSubsequence(Hits(posts, q), posts)
    ensures IsSelection(Hits(posts, q), posts, Matcher(q))
  {
    FilterIsSelection(posts, Matcher(q));
  }

  /** The number reported by "Found N results" is the number of positions
      in `posts` holding a matching post. */
  lemma FoundCountIsMatchCount(posts: seq<Post>, q: string)
    requires q != ""
    ensures |Hits(posts, q)| == |set i | 0 <= i < |posts| && Matches(posts[i], q)|
  {
    FilterCount(posts, Matcher(q));
    assert Where(posts, Matcher(q)) == set i | 0 <= i < |posts| && Matches(posts[i], q);
  }

  /** A query made only of whitespace is truthy, so `if q:` lets it through,
      but it strips to `""`, which occurs in every title: every post is a
      hit, in the original order. */
  lemma WhitespaceQueryMatchesAll(posts: seq<Post>, q: string)
    requires q != "" && AllSpace(q)
    ensures Hits(posts, q) == posts
  {
    forall k | 0 <= k < |q| ensures IsSpace(Lower(q)[k]) {
      LowerCharKeepsSpace(q[k]);
    }
    StripEmptyIff(Lower(q));
    forall p | p in posts ensures Matches(p, q) {
      MatchesIff(p, q);
      EmptyIsInfix(Normalize(p.title));
      assert FieldText(p, SearchFields[0]) == p.title;
    }
    FilterAll(posts, Matcher(q));
  }

  /** A query spanning two adjacent tags of a tag list matches: the list is
      searched as its items joined by single spaces, and whitespace around
      the items does not get in the way, because the normalized query is
      itself stripped. */
  lemma AdjacentTagsMatch(p: Post, i: nat, q: string)
    requires p.tags.Some? && p.tags.value.TagList?
    requires i + 1 < |p.tags.value.items|
    requires IsInfix(Normalize(q), Lower(p.tags.value.items[i] + " " + p.tags.value.items[i + 1]))
    ensures Matches(p, q)
  {
    var items := p.tags.value.items;
    var pair := items[i] + " " + items[i + 1];
    var k := JoinAdjacent(items, i);
    LowerKeepsInfix(pair, Join(items), k);
    InfixTransitive(Normalize(q), Lower(pair), Lower(Join(items)));
    StrippedInfix(Lower(q), Lower(Join(items)));
    assert FieldText(p, TagsField) == Join(items);
    assert SearchFields[3] == TagsField;
    MatchesIff(p, q);
  }

  /** A query that occurs in a post's raw title finds that post: lower-casing
      and stripping the query only shrink it, and what is left still occurs
      in the normalized title. */
  lemma TitleSubstringHits(posts: seq<Post>, q: string, p: Post)
    requires q != "" && p in posts && IsInfix(q, p.title)
    ensures p in Hits(posts, q)
  {
    NormalizedInfix(q, p.title);
    HitIff(posts, q, p);
  }
}
