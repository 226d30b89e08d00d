/** The dev.to content source (lib/dev-api.ts). The two HTTP responses are
    inputs: the list of published articles, and the article fetched for one
    slug (a failed request or an unreadable body is a Failure). Front-matter
    stripping (`matter(...).content`) and markdown rendering are external and
    passed in as functions. */
module DevApi {
  import opened Types

  /** The fields of a dev.to article record that the code reads. */
  datatype Article = Article(
    title: string,
    description: string,
    slug: string,
    publishedTimestamp: string,
    coverImage: string,
    socialImage: string,
    bodyMarkdown: string)

  /** The keys of `Article` that can be asked for by name. */
  datatype Field = Slug | Title | Description | PublishedTimestamp | CoverImage | SocialImage | BodyMarkdown

  /** `article[field]`. */
  function FieldOf(a: Article, f: Field): string {
    match f
    case Slug => a.slug
    case Title => a.title
    case Description => a.description
    case PublishedTimestamp => a.publishedTimestamp
    case CoverImage => a.coverImage
    case SocialImage => a.socialImage
    case BodyMarkdown => a.bodyMarkdown
  }

  /** `articleToPostSummary`: the summary of one listed article. */
  function ArticleToPostSummary(a: Article): (s: PostSummary)
    ensures s.slug == FieldOf(a, Slug) && s.title == FieldOf(a, Title)
    ensures s.date == FieldOf(a, PublishedTimestamp) && s.description == FieldOf(a, Description)
  {
    PostSummary(a.slug, a.title, a.publishedTimestamp, a.description)
  }

  /** `.map(articleToPostSummary)`. */
  function Summaries(articles: seq<Article>): (s: seq<PostSummary>)
    ensures |s| == |articles|
    ensures forall i :: 0 <= i < |s| ==> s[i] == ArticleToPostSummary(articles[i])
  {
    if articles == [] then []
    else [ArticleToPostSummary(articles[0])] + Summaries(articles[1..])
  }

  /** `getAllPosts`: one summary per listed article, in the listing's order;
      a failed listing fails the call. */
  function GetAllPosts(listing: Result<seq<Article>>): (r: Result<seq<PostSummary>>)
    ensures r.Success? <==> listing.Success?
    ensures r.Failure? ==> r.error == listing.error
    ensures r.Success? ==> |r.value| == |listing.value|
    ensures r.Success? ==> forall i :: 0 <= i < |r.value| ==>
              && r.value[i].slug == listing.value[i].slug && r.value[i].title == listing.value[i].title
              && r.value[i].date == listing.value[i].publishedTimestamp
              && r.value[i].description == listing.value[i].description
  {
    match listing
    case Failure(e) => Failure(e)
    case Success(articles) => Success(Summaries(articles))
  }

  /** The object `fields.forEach(field => partialArticle[field] = article[field])` builds. */
  function Projection(article: Article, fields: seq<Field>): (partial: map<Field, string>)
    ensures partial.Keys == set f | f in fields
    ensures forall f :: f in partial ==> partial[f] == FieldOf(article, f)
  {
    map f | f in fields :: FieldOf(article, f)
  }

  /** `getDevToArticleBySlug`, specified on values: the fetched article must carry
      the requested slug, and only the requested fields are kept. */
  function ArticleBySlug(slug: string, fetched: Result<Article>, fields: seq<Field>): (r: Result<map<Field, string>>)
    ensures fetched.Failure? ==> r == Failure(fetched.error)
    ensures fetched.Success? && fetched.value.slug != slug ==> r == Failure(NotFound)
    ensures fetched.Success? && fetched.value.slug == slug ==> r == Success(Projection(fetched.value, fields))
  {
    match fetched
    case Failure(e) => Failure(e)
    case Success(article) =>
      if article.slug != slug then Failure(NotFound)
      else Success(Projection(article, fields))
  }

  /** `getDevToArticleBySlug`: the slug check, then the field-by-field copy. */
  method GetDevToArticleBySlug(slug: string, fetched: Result<Article>, fields: seq<Field>)
    returns (r: Result<map<Field, string>>)
    ensures r == ArticleBySlug(slug, fetched, fields)
  {
    if fetched.Failure? {
      return Failure(fetched.error);
    }
    var article := fetched.value;
    if article.slug != slug {
      return Failure(NotFound);
    }
    var partial: map<Field, string> := map[];
    for i := 0 to |fields|
      invariant partial.Keys == set j | 0 <= j < i :: fields[j]
      invariant forall f :: f in partial ==> partial[f] == FieldOf(article, f)
    {
      partial := partial[fields[i] := FieldOf(article, fields[i])];
    }
    assert (set j | 0 <= j < |fields| :: fields[j]) == set f | f in fields;
    assert partial == Projection(article, fields);
    r := Success(partial);
  }

  /** The fields `getPostBySlug` asks for; `Description` is not among them. */
  const PostFields: seq<Field> := [Slug, Title, BodyMarkdown, PublishedTimestamp, CoverImage, SocialImage]

  /** What the projection for `getPostBySlug` holds. */
  lemma PostFieldsProjection(a: Article)
    ensures var p := Projection(a, PostFields);
            && Slug in p && p[Slug] == a.slug
            && Title in p && p[Title] == a.title
            && BodyMarkdown in p && p[BodyMarkdown] == a.bodyMarkdown
            && PublishedTimestamp in p && p[PublishedTimestamp] == a.publishedTimestamp
            && CoverImage in p && p[CoverImage] == a.coverImage
            && SocialImage in p && p[SocialImage] == a.socialImage
            && Description !in p
  {
    var p := Projection(a, PostFields);
    assert PostFields[0] == Slug && PostFields[1] == Title && PostFields[2] == BodyMarkdown;
    assert PostFields[3] == PublishedTimestamp && PostFields[4] == CoverImage && PostFields[5] == SocialImage;
  }

  /** `partial.field || default`: a missing key reads as undefined. */
  function FieldOr(partial: map<Field, string>, f: Field, default: string): string {
    OrElse(if f in partial then Some(partial[f]) else None, default)
  }

  function FieldIfPresent(partial: map<Field, string>, f: Field): Option<string> {
    if f in partial then Some(partial[f]) else None
  }

  /** `getPostBySlug`: the post for `slug`, with the code's defaults for falsy fields. */
  function GetPostBySlug(slug: string, fetched: Result<Article>,
                         stripFrontMatter: string -> string, toHtml: string -> string): (r: Result<Post>)
    ensures r.Success? <==> fetched.Success? && fetched.value.slug == slug
    ensures fetched.Failure? ==> r == Failure(fetched.error)
    ensures fetched.Success? && fetched.value.slug != slug ==> r == Failure(NotFound)
    ensures r.Success? ==>
              var a := fetched.value;
              && r.value.slug == slug
              && r.value.title == OrElse(Some(a.title), "")
              && r.value.date == OrElse(Some(a.publishedTimestamp), "1970-01-01")
              && r.value.description == Some("")
              && r.value.coverImage == Some(a.coverImage)
              && r.value.socialImage == Some(a.socialImage)
              && r.value.bodyHtml == toHtml(stripFrontMatter(OrElse(Some(a.bodyMarkdown), "")))
              && r.value.relatedPosts.None?
  {
    match ArticleBySlug(slug, fetched, PostFields)
    case Failure(e) => Failure(e)
    case Success(partial) =>
      PostFieldsProjection(fetched.value);
      Success(Post(
        slug := FieldOr(partial, Slug, slug),
        title := FieldOr(partial, Title, ""),
        description := Some(FieldOr(partial, Description, "")),
        date := FieldOr(partial, PublishedTimestamp, "1970-01-01"),
        bodyHtml := toHtml(stripFrontMatter(FieldOr(partial, BodyMarkdown, ""))),
        openGraphImage := None,
        coverImage := FieldIfPresent(partial, CoverImage),
        socialImage := FieldIfPresent(partial, SocialImage),
        coverImageDimensions := None,
        relatedPosts := None,
        mirrors := None))
  }
}
