/**
 * The post records that `list_posts()` returns (front-matter metadata of
 * each markdown post) and the summary card `blog_post(...)` is built from.
 */
module Posts {
  import opened Wrappers
  import Text

  /** A `tags` front-matter value: YAML gives a plain string or a list. */
  datatype Tags = TagString(text: string) | TagList(items: seq<string>)

  /** One post's metadata. `title`, `slug` and `date` are read with
      `x[...]` and so always present; the others are read with `x.get(...)`
      and may be missing. A missing `popular` reads as `False`. */
  datatype Post = Post(
    title: string,
    slug: string,
    date: string,
    description: Option<string>,
    content: Option<string>,
    tags: Option<Tags>,
    popular: bool)

  /** The field names the search handler looks at. */
  datatype Field = TitleField | DescriptionField | ContentField | TagsField

  /** `["title", "description", "content", "tags"]`. */
  const SearchFields: seq<Field> := [TitleField, DescriptionField, ContentField, TagsField]

  /** The text a field contributes to search: `obj.get(name, "")`, with a
      list joined by single spaces. */
  function FieldText(p: Post, f: Field): string
  {
    match f
    case TitleField => p.title
    case DescriptionField => p.description.GetOr("")
    case ContentField => p.content.GetOr("")
    case TagsField =>
      match p.tags
      case None => ""
      case Some(TagString(s)) => s
      case Some(TagList(items)) => Text.Join(items)
  }

  /** A missing field counts as `""`; title and a plain-string tags value
      are searched as they are. */
  lemma FieldTextDefaults(p: Post)
    ensures FieldText(p, TitleField) == p.title
    ensures p.description.None? ==> FieldText(p, DescriptionField) == ""
    ensures p.content.None? ==> FieldText(p, ContentField) == ""
    ensures p.tags.None? ==> FieldText(p, TagsField) == ""
    ensures p.tags.Some? && p.tags.value.TagString? ==> FieldText(p, TagsField) == p.tags.value.text
  {
  }

  /** A tag list is searched as one string in which every tag, and every
      two adjacent tags with the space between them, occur. */
  lemma TagListText(p: Post)
    requires p.tags.Some? && p.tags.value.TagList?
    ensures forall i :: 0 <= i < |p.tags.value.items| ==> Text.IsInfix(p.tags.value.items[i], FieldText(p, TagsField))
    ensures forall i :: 0 <= i < |p.tags.value.items| - 1 ==>
      Text.IsInfix(p.tags.value.items[i] + " " + p.tags.value.items[i + 1], FieldText(p, TagsField))
  {
    Text.JoinContains(p.tags.value.items);
  }

  /** The arguments of `blog_post(title=..., slug=..., timestamp=...,
      description=...)`: what a listing shows of a post. */
  datatype Card = Card(title: string, slug: string, timestamp: string, description: string)

  function CardOf(p: Post): Card {
    Card(p.title, p.slug, p.date, p.description.GetOr(""))
  }

  /** The comprehension `[blog_post(...) for x in posts]`. */
  function Cards(posts: seq<Post>): (r: seq<Card>)
    ensures |r| == |posts|
    ensures forall k :: 0 <= k < |posts| ==> r[k] == CardOf(posts[k])
  {
    seq(|posts|, k requires 0 <= k < |posts| => CardOf(posts[k]))
  }

  /** The tag page's test `slug in x.get("tags", [])`: list membership by
      string equality for a list, Python's substring test for a plain
      string, false when there are no tags. */
  function HasTag(p: Post, slug: string): bool {
    match p.tags
    case None => false
    case Some(TagList(items)) => slug in items
    case Some(TagString(s)) => Text.Contains(s, slug)
  }
}
