/**
 * The listing handlers: the tag page `/tags/{slug}`, the home page `/` and
 * the nested route `/{slug_1}/{slug_2}`.
 */
module Pages {
  import opened Wrappers
  import opened Seqs
  import opened Posts
  import Text

  /** The condition of the tag page's comprehension. */
  function Tagged(slug: string): Post -> bool {
    p => HasTag(p, slug)
  }

  /** The tag page: its heading reports `len(posts)`, and it lists the cards. */
  datatype TagView = TagView(tag: string, count: nat, cards: seq<Card>)

  /** `/tags/{slug}`: the posts whose tags contain `slug`, in order. */
  function TagPage(posts: seq<Post>, slug: string): (r: TagView)
    ensures r.tag == slug && r.count == |r.cards|
    ensures r.cards == Cards(Filter(posts, Tagged(slug)))
    ensures forall p :: p in posts && HasTag(p, slug) ==> CardOf(p) in r.cards
  {
    var tagged := Filter(posts, Tagged(slug));
    var cards := Cards(tagged);
    assert forall p :: p in tagged ==> CardOf(p) in cards by {
      forall p | p in tagged ensures CardOf(p) in cards {
        var k :| 0 <= k < |tagged| && tagged[k] == p;
        assert cards[k] == CardOf(p);
      }
    }
    TagView(slug, |cards|, cards)
  }

  /** The reported count is the number of positions of `posts` whose post
      carries the tag. */
  lemma TagCount(posts: seq<Post>, slug: string)
    ensures TagPage(posts, slug).count == |set i | 0 <= i < |posts| && HasTag(posts[i], slug)|
  {
    FilterCount(posts, Tagged(slug));
    assert Where(posts, Tagged(slug)) == set i | 0 <= i < |posts| && HasTag(posts[i], slug);
  }

  /** The tagged posts are those of `posts` that carry the tag, in their
      order. */
  lemma TagPostsInOrder(posts: seq<Post>, slug: string)
    ensures IsSubsequence(Filter(posts, Tagged(slug)), posts)
    ensures IsSelection(Filter(posts, Tagged(slug)), posts, Tagged(slug))
  {
    FilterIsSelection(posts, Tagged(slug));
  }

  /** With a tag list, membership is by exact string equality: a tag that
      merely contains the slug does not count. */
  lemma TagListIsExact(p: Post, slug: string)
    requires p.tags.Some? && p.tags.value.TagList?
    ensures HasTag(p, slug) <==> exists k :: 0 <= k < |p.tags.value.items| && p.tags.value.items[k] == slug
  {
  }

  /** With a plain-string `tags` value, Python's `in` is a substring test:
      the slug need only occur somewhere in the string. */
  lemma TagStringIsSubstring(p: Post, slug: string)
    requires p.tags.Some? && p.tags.value.TagString?
    ensures HasTag(p, slug) <==> Text.IsInfix(slug, p.tags.value.text)
  {
    Text.ContainsIff(p.tags.value.text, slug);
  }

  /** The home page's two sections of cards. */
  datatype HomeView = HomeView(recent: seq<Card>, popular: seq<Card>)

  function IsPopular(p: Post): bool {
    p.popular
  }

  /** `/`: `posts[:3]` of all cards, and the cards of the posts whose
      `popular` flag is set. */
  function HomePage(posts: seq<Post>): (r: HomeView)
    ensures |r.recent| == if |posts| < 3 then |posts| else 3
    ensures forall k :: 0 <= k < |r.recent| ==> r.recent[k] == CardOf(posts[k])
    ensures r.popular == Cards(Filter(posts, IsPopular))
  {
    HomeView(Take(Cards(posts), 3), Cards(Filter(posts, IsPopular)))
  }

  /** The popular section lists exactly the posts whose flag is set, in the
      order of `posts`. */
  lemma PopularInOrder(posts: seq<Post>)
    ensures IsSelection(Filter(posts, IsPopular), posts, IsPopular)
    ensures forall p :: p in Filter(posts, IsPopular) <==> p in posts && p.popular
  {
    FilterIsSelection(posts, IsPopular);
  }

  /** The path the nested route hands to `markdown_page`. */
  function NestedPath(slug1: string, slug2: string): string {
    slug1 + "/" + slug2
  }

  /** `/{slug_1}/{slug_2}`: `markdown_page(slug_1 + "/" + slug_2)`; the
      redirect table is not consulted. */
  function ResolveNested<P>(slug1: string, slug2: string, markdownPage: string -> P): (r: P)
    ensures r == markdownPage(NestedPath(slug1, slug2))
    ensures '/' !in slug1 ==> SplitFirstSlash(NestedPath(slug1, slug2)) == Some((slug1, slug2))
  {
    if '/' in slug1 then markdownPage(NestedPath(slug1, slug2))
    else NestedPathSplits(slug1, slug2); markdownPage(NestedPath(slug1, slug2))
  }

  /** Splits at the first `/`. */
  function SplitFirstSlash(s: string): Option<(string, string)>
  {
    if s == [] then None
    else if s[0] == '/' then Some(([], s[1..]))
    else match SplitFirstSlash(s[1..])
      case None => None
      case Some((a, b)) => Some(([s[0]] + a, b))
  }

  /** A route segment cannot contain `/`, so the joined path splits back at
      its first `/` into the two segments. */
  lemma {:induction false} NestedPathSplits(slug1: string, slug2: string)
    requires '/' !in slug1
    ensures SplitFirstSlash(NestedPath(slug1, slug2)) == Some((slug1, slug2))
  {
    if slug1 != [] {
      var s := NestedPath(slug1, slug2);
      assert s[0] == slug1[0] && slug1[0] != '/';
      assert s[1..] == NestedPath(slug1[1..], slug2);
      NestedPathSplits(slug1[1..], slug2);
      assert [slug1[0]] + slug1[1..] == slug1;
    } else {
      assert NestedPath(slug1, slug2) == "/" + slug2;
    }
  }

  /** Distinct pairs of segments reach distinct markdown paths. */
  lemma NestedPathInjective(a1: string, a2: string, b1: string, b2: string)
    requires '/' !in a1 && '/' !in b1
    requires NestedPath(a1, a2) == NestedPath(b1, b2)
    ensures a1 == b1 && a2 == b2
  {
    NestedPathSplits(a1, a2);
    NestedPathSplits(b1, b2);
  }
}
