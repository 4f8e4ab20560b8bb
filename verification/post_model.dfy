/**
 * The Post document (backend/models/Post.js): its fields and defaults, the
 * schema's required and maximum-length checks, and the pre-save hook that
 * derives the slug, the read time and the excerpt.
 */
module PostModel {
  import opened Results
  import opened Text
  import Slug

  const TitleMax: nat := 200
  const ExcerptMax: nat := 500
  const WordsPerMinute: nat := 200
  const ExcerptCut: nat := 150
  const Ellipsis: String := "..."

  /** A stored post. `slug` is None until the hook first derives it. */
  datatype Post = Post(
    id: String,
    title: String,
    content: String,
    excerpt: String,
    author: String,
    category: String,
    tags: seq<String>,
    published: bool,
    slug: Option<String>,
    readTime: nat,
    views: nat,
    createdAt: int)

  /** The fields a create request may carry; None is a field the body leaves out. */
  datatype PostInput = PostInput(
    title: Option<String>,
    content: Option<String>,
    excerpt: Option<String>,
    author: Option<String>,
    category: Option<String>,
    tags: Option<seq<String>>,
    published: Option<bool>,
    slug: Option<String>,
    readTime: Option<nat>,
    views: Option<nat>)

  function StringOr(o: Option<String>): String {
    match o
    case Some(s) => s
    case None => []
  }

  /** The document Mongoose builds for a new post: the title goes through the `trim`
      setter, and absent fields take the schema defaults. */
  function NewPost(input: PostInput, id: String, now: int): (p: Post)
    ensures p.id == id && p.createdAt == now
    ensures p.title == Trim(StringOr(input.title))
    ensures p.content == StringOr(input.content) && p.excerpt == StringOr(input.excerpt)
    ensures p.author == StringOr(input.author) && p.category == StringOr(input.category)
    ensures p.slug == input.slug
    ensures input.published.None? ==> !p.published
    ensures input.published.Some? ==> p.published == input.published.value
    ensures input.views.None? ==> p.views == 0
    ensures input.views.Some? ==> p.views == input.views.value
    ensures input.readTime.None? ==> p.readTime == 0
    ensures input.readTime.Some? ==> p.readTime == input.readTime.value
    ensures input.tags.None? ==> p.tags == []
    ensures input.tags.Some? ==> p.tags == input.tags.value
  {
    Post(
      id,
      Trim(StringOr(input.title)),
      StringOr(input.content),
      StringOr(input.excerpt),
      StringOr(input.author),
      StringOr(input.category),
      match input.tags case Some(t) => t case None => [],
      match input.published case Some(b) => b case None => false,
      input.slug,
      match input.readTime case Some(n) => n case None => 0,
      match input.views case Some(n) => n case None => 0,
      now)
  }

  /** What the schema demands of a post before it is saved. */
  predicate SchemaValid(p: Post) {
    && p.title != [] && |p.title| <= TitleMax
    && p.content != []
    && p.excerpt != [] && |p.excerpt| <= ExcerptMax
    && p.author != []
    && p.category != []
  }

  /** The schema's validation errors, in path order; empty exactly when the post is valid. */
  function SchemaErrors(p: Post): (errs: seq<FieldError>)
    ensures errs == [] <==> SchemaValid(p)
    ensures |errs| <= 5
  {
    Check("title", p.title != [], "Title is required")
    + Check("title", |p.title| <= TitleMax, "Title cannot be more than 200 characters")
    + Check("content", p.content != [], "Content is required")
    + Check("excerpt", p.excerpt != [], "Path `excerpt` is required.")
    + Check("excerpt", |p.excerpt| <= ExcerptMax, "Excerpt cannot be more than 500 characters")
    + Check("author", p.author != [], "Author is required")
    + Check("category", p.category != [], "Category is required")
  }

  /** `Math.ceil(n / d)` for a positive divisor. */
  function CeilDiv(n: nat, d: nat): (q: nat)
    requires d > 0
    ensures q * d >= n
    ensures q == 0 || (q - 1) * d < n
  {
    (n + d - 1) / d
  }

  /** The number of pieces `content.split(/\s+/)` yields. */
  function WordCount(content: String): (n: nat)
    ensures n == Runs(content) + 1
  {
    SplitWsShape(content);
    |SplitWs(content)|
  }

  /** Minutes of reading at 200 words a minute, rounded up: never zero, since
      splitting any string yields at least one piece. */
  function ReadTime(content: String): (r: nat)
    ensures r >= 1
    ensures (r - 1) * WordsPerMinute < WordCount(content) <= r * WordsPerMinute
  {
    CeilDiv(WordCount(content), WordsPerMinute)
  }

  /** `content.substring(0, 150) + '...'`: a prefix of the content, at most 150 long,
      the whole content when it is shorter, and always followed by the ellipsis. */
  function AutoExcerpt(content: String): (r: String)
    ensures |Ellipsis| <= |r| <= ExcerptCut + |Ellipsis|
    ensures r[|r| - 3..] == Ellipsis
    ensures r[..|r| - 3] <= content
    ensures |content| <= ExcerptCut ==> r == content + Ellipsis
    ensures |content| > ExcerptCut ==> |r| == ExcerptCut + |Ellipsis|
  {
    var k := if |content| < ExcerptCut then |content| else ExcerptCut;
    content[..k] + Ellipsis
  }

  /** The pre-save hook. `titleModified` and `contentModified` stand for
      `isModified('title')` and `isModified('content')`. */
  function PreSave(p: Post, titleModified: bool, contentModified: bool): (q: Post)
    ensures p.title != [] && titleModified ==> q.slug == Some(Slug.Slugify(p.title))
    ensures !(p.title != [] && titleModified) ==> q.slug == p.slug
    ensures p.content != [] && contentModified ==> q.readTime == ReadTime(p.content) && q.readTime >= 1
    ensures !(p.content != [] && contentModified) ==> q.readTime == p.readTime
    ensures p.excerpt != [] ==> q.excerpt == p.excerpt
    ensures p.excerpt == [] && p.content != [] ==> q.excerpt == AutoExcerpt(p.content)
    ensures p.excerpt == [] && p.content == [] ==> q.excerpt == []
    ensures q.(slug := p.slug, readTime := p.readTime, excerpt := p.excerpt) == p
  {
    var withSlug := if p.title != [] && titleModified then p.(slug := Some(Slug.Slugify(p.title))) else p;
    var withTime := if p.content != [] && contentModified then withSlug.(readTime := ReadTime(p.content)) else withSlug;
    if p.excerpt == [] && p.content != [] then withTime.(excerpt := AutoExcerpt(p.content)) else withTime
  }

  /** `Post.create(body)`: build the document, validate it, then run the hook with
      every path counted as modified. A post that fails validation is not saved. */
  function CreateDocument(input: PostInput, id: String, now: int): (r: Result<Post, seq<FieldError>>)
    ensures r.Err? <==> !SchemaValid(NewPost(input, id, now))
    ensures r.Err? ==> r.error != []
    ensures r.Ok? ==> SchemaValid(r.value)
    ensures r.Ok? ==> r.value.title == Trim(StringOr(input.title))
    ensures r.Ok? ==> r.value.slug == Some(Slug.Slugify(r.value.title))
    ensures r.Ok? ==> r.value.readTime == ReadTime(r.value.content)
    ensures r.Ok? ==> r.value.excerpt == StringOr(input.excerpt)
    ensures r.Ok? ==> r.value.author == StringOr(input.author)
    ensures r.Ok? ==> r.value.content == StringOr(input.content)
    ensures r.Ok? ==> r.value.category == StringOr(input.category)
    ensures r.Ok? ==> r.value.tags == if input.tags.Some? then input.tags.value else []
    ensures r.Ok? ==> r.value.published == (input.published == Some(true))
    ensures r.Ok? ==> r.value.views == if input.views.Some? then input.views.value else 0
    ensures r.Ok? ==> r.value.id == id && r.value.createdAt == now
  {
    var doc := NewPost(input, id, now);
    var errs := SchemaErrors(doc);
    if errs != [] then Err(errs)
    else
      SavedNewPost(input, id, now);
      Ok(PreSave(doc, true, true))
  }

  /** What the hook makes of a valid new document: the derived slug and read time, and
      every supplied field or its default. */
  lemma SavedNewPost(input: PostInput, id: String, now: int)
    requires SchemaValid(NewPost(input, id, now))
    ensures var q := PreSave(NewPost(input, id, now), true, true);
      && SchemaValid(q)
      && q.title == Trim(StringOr(input.title))
      && q.slug == Some(Slug.Slugify(q.title))
      && q.readTime == ReadTime(q.content)
      && q.excerpt == StringOr(input.excerpt)
      && q.author == StringOr(input.author)
      && q.content == StringOr(input.content)
      && q.category == StringOr(input.category)
      && q.tags == (if input.tags.Some? then input.tags.value else [])
      && q.published == (input.published == Some(true))
      && q.views == (if input.views.Some? then input.views.value else 0)
      && q.id == id && q.createdAt == now
  {
    var p := NewPost(input, id, now);
    var q := PreSave(p, true, true);
    assert q.excerpt == p.excerpt;
    assert q.(slug := p.slug, readTime := p.readTime, excerpt := p.excerpt) == p;
  }

  /** A text of n words separated by single spaces reads in ceil(n / 200) minutes:
      200 words read in one minute and 201 words in two. */
  lemma {:induction false} ReadTimeOfWords(words: seq<String>)
    requires |words| >= 1
    requires forall i :: 0 <= i < |words| ==> words[i] != [] && NoWs(words[i])
    ensures ReadTime(Join(words, " ")) == CeilDiv(|words|, WordsPerMinute)
    ensures |words| == 200 ==> ReadTime(Join(words, " ")) == 1
    ensures |words| == 201 ==> ReadTime(Join(words, " ")) == 2
  {
    SplitWsOfJoinedWords(words);
  }

  /** An automatic excerpt always fits the schema's excerpt bound. */
  lemma AutoExcerptWithinBound(content: String)
    ensures |AutoExcerpt(content)| <= ExcerptMax
  {
  }

  /** The hook never turns a slug-less post with a non-empty title into one without a slug,
      and the slug it writes uses only `[a-z0-9-]` without doubled hyphens. */
  lemma {:induction false} HookSlugWellFormed(p: Post, titleModified: bool, contentModified: bool)
    requires p.title != [] && titleModified
    ensures PreSave(p, titleModified, contentModified).slug.Some?
    ensures var s := PreSave(p, titleModified, contentModified).slug.value;
      (forall i :: 0 <= i < |s| ==> Slug.IsSlugChar(s[i])) && NoDoubled(s, '-')
  {
  }
}
