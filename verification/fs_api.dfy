/** The filesystem content source (lib/fs-api.ts). Each post is a directory
    under `public/blog` holding an `index.md`; each page one under
    `public/pages`. The directory listing and the parsed files are inputs: the
    front matter gray-matter reads, and the markdown left after the second
    `matter` pass. Markdown rendering is external and passed in. */
module FsApi {
  import opened Types
  import opened Catalog
  import opened LinkRewrite

  /** The front-matter fields the code reads; None when a field is not set. */
  datatype FrontMatter = FrontMatter(title: Option<string>, date: Option<string>, description: Option<string>)

  /** One `index.md`, parsed. */
  datatype MarkdownFile = MarkdownFile(data: FrontMatter, content: string)

  /** A content directory: its listing (None when it cannot be read) and the
      `index.md` of each subdirectory that has one. */
  datatype Directory = Directory(entries: Option<seq<string>>, files: map<string, MarkdownFile>)

  const PostsDirectory := "public/blog"
  const PagesDirectory := "public/pages"

  function IndexPath(dir: string, slug: string): string {
    dir + "/" + slug + "/index.md"
  }

  /** Entries starting with `.` are skipped; `slug[0]` of an empty name is undefined, which is kept. */
  predicate IsHidden(entry: string) {
    |entry| > 0 && entry[0] == '.'
  }

  /** `.filter((slug) => slug[0] !== ".")`. */
  function VisibleEntries(entries: seq<string>): (r: seq<string>)
    ensures forall i :: 0 <= i < |r| ==> !IsHidden(r[i]) && r[i] in entries
    ensures forall e :: e in entries && !IsHidden(e) ==> e in r
    ensures forall e :: multiset(r)[e] == (if IsHidden(e) then 0 else multiset(entries)[e])
  {
    if entries == [] then []
    else
      assert entries == [entries[0]] + entries[1..];
      if IsHidden(entries[0]) then VisibleEntries(entries[1..])
      else [entries[0]] + VisibleEntries(entries[1..])
  }

  /** The filter keeps the order of the listing: filtering two halves and
      joining them is filtering the whole. */
  lemma {:induction false} VisibleEntriesAppend(a: seq<string>, b: seq<string>)
    ensures VisibleEntries(a + b) == VisibleEntries(a) + VisibleEntries(b)
    decreases |a|
  {
    if a == [] {
      assert a + b == b;
    } else {
      assert (a + b)[0] == a[0];
      assert (a + b)[1..] == a[1..] + b;
      VisibleEntriesAppend(a[1..], b);
    }
  }

  /** `getPostSummary`: the slug is the directory name; a missing description
      becomes "". A missing title or date is undefined in the source; here it is "". */
  function GetPostSummary(dir: Directory, slug: string): (r: Result<PostSummary>)
    ensures r.Success? <==> slug in dir.files
    ensures r.Failure? ==> r.error == FileMissing(IndexPath(PostsDirectory, slug))
    ensures r.Success? ==> r.value.slug == slug
    ensures r.Success? ==> r.value.title == dir.files[slug].data.title.GetOr("")
    ensures r.Success? ==> r.value.date == dir.files[slug].data.date.GetOr("")
    ensures r.Success? ==> var d := dir.files[slug].data.description;
              r.value.description == (if d.Some? && d.value != "" then d.value else "")
  {
    if slug !in dir.files then Failure(FileMissing(IndexPath(PostsDirectory, slug)))
    else
      var data := dir.files[slug].data;
      Success(PostSummary(slug, data.title.GetOr(""), data.date.GetOr(""), OrElse(data.description, "")))
  }

  /** `.map((slug) => getPostSummary(slug))`: the first unreadable file throws. */
  function SummariesOf(dir: Directory, slugs: seq<string>): (r: Result<seq<PostSummary>>)
    ensures r.Success? <==> forall i :: 0 <= i < |slugs| ==> slugs[i] in dir.files
    ensures r.Success? ==> |r.value| == |slugs|
    ensures r.Success? ==> forall i :: 0 <= i < |slugs| ==> r.value[i] == GetPostSummary(dir, slugs[i]).value
  {
    if slugs == [] then Success([])
    else
      match GetPostSummary(dir, slugs[0])
      case Failure(e) => Failure(e)
      case Success(first) =>
        match SummariesOf(dir, slugs[1..])
        case Failure(e) => Failure(e)
        case Success(rest) => Success([first] + rest)
  }

  lemma SummariesHaveTheirSlugs(dir: Directory, slugs: seq<string>)
    requires SummariesOf(dir, slugs).Success?
    ensures var r := SummariesOf(dir, slugs).value;
            && (forall p :: p in r ==> p.slug in slugs)
            && (forall e :: e in slugs ==> exists p :: p in r && p.slug == e)
  {
    var r := SummariesOf(dir, slugs).value;
    forall p | p in r ensures p.slug in slugs {
      var i :| 0 <= i < |r| && r[i] == p;
      assert p.slug == slugs[i];
    }
    forall e | e in slugs ensures exists p :: p in r && p.slug == e {
      var i :| 0 <= i < |slugs| && slugs[i] == e;
      assert r[i] in r && r[i].slug == e;
    }
  }

  /** `getAllPosts`: one summary per visible entry, newest first. */
  function GetAllPosts(dir: Directory): (r: Result<seq<PostSummary>>)
    ensures dir.entries.None? ==> r == Failure(FileMissing(PostsDirectory))
    ensures r.Success? <==> dir.entries.Some? && SummariesOf(dir, VisibleEntries(dir.entries.value)).Success?
    ensures r.Success? ==> SortedByDateDesc(r.value)
    ensures r.Success? ==> |r.value| == |VisibleEntries(dir.entries.value)|
    ensures r.Success? ==> forall p :: p in r.value ==> !IsHidden(p.slug) && p.slug in dir.entries.value
    ensures r.Success? ==> forall e :: e in dir.entries.value && !IsHidden(e) ==> exists p :: p in r.value && p.slug == e
    ensures r.Success? ==> multiset(r.value) == multiset(SummariesOf(dir, VisibleEntries(dir.entries.value)).value)
  {
    match dir.entries
    case None => Failure(FileMissing(PostsDirectory))
    case Some(entries) =>
      var slugs := VisibleEntries(entries);
      match SummariesOf(dir, slugs)
      case Failure(e) => Failure(e)
      case Success(summaries) =>
        var sorted := SortByDateDesc(summaries);
        SortKeepsMembers(summaries);
        SummariesHaveTheirSlugs(dir, slugs);
        Success(sorted)
  }

  /** The link prefix of a blog post's own files. */
  function BlogPrefix(slug: string): string {
    "/blog/" + slug + "/"
  }

  /** The link prefix of a page's own files. */
  function PagesPrefix(slug: string): string {
    "/pages/" + slug + "/"
  }

  /** `getPostBySlug`: relative links point into the post's directory; a missing
      title becomes "" and a missing date "1970-01-01". No description is set. */
  function GetPostBySlug(dir: Directory, slug: string, toHtml: string -> string): (r: Result<Post>)
    ensures r.Success? <==> slug in dir.files
    ensures r.Failure? ==> r.error == FileMissing(IndexPath(PostsDirectory, slug))
    ensures r.Success? ==>
              var file := dir.files[slug];
              && r.value.slug == slug
              && r.value.title == OrElse(file.data.title, "")
              && r.value.date == OrElse(file.data.date, "1970-01-01")
              && r.value.description.None?
              && r.value.bodyHtml == toHtml(Rewrite(file.content, BlogPrefix(slug)))
  {
    if slug !in dir.files then Failure(FileMissing(IndexPath(PostsDirectory, slug)))
    else
      var file := dir.files[slug];
      Success(Post(
        slug := slug,
        title := OrElse(file.data.title, ""),
        description := None,
        date := OrElse(file.data.date, "1970-01-01"),
        bodyHtml := toHtml(Rewrite(file.content, BlogPrefix(slug))),
        openGraphImage := None,
        coverImage := None,
        socialImage := None,
        coverImageDimensions := None,
        relatedPosts := None,
        mirrors := None))
  }

  /** What `getPage` returns. */
  datatype Page = Page(title: string, description: string, bodyHtml: string)

  /** `getPage`: relative links point into the page's directory; a missing title
      or description becomes "". */
  function GetPage(dir: Directory, slug: string, toHtml: string -> string): (r: Result<Page>)
    ensures r.Success? <==> slug in dir.files
    ensures r.Failure? ==> r.error == FileMissing(IndexPath(PagesDirectory, slug))
    ensures r.Success? ==>
              var file := dir.files[slug];
              && r.value.title == OrElse(file.data.title, "")
              && r.value.description == OrElse(file.data.description, "")
              && r.value.bodyHtml == toHtml(Rewrite(file.content, PagesPrefix(slug)))
  {
    if slug !in dir.files then Failure(FileMissing(IndexPath(PagesDirectory, slug)))
    else
      var file := dir.files[slug];
      Success(Page(OrElse(file.data.title, ""), OrElse(file.data.description, ""),
                   toHtml(Rewrite(file.content, PagesPrefix(slug)))))
  }

  /** A blog post whose markdown has no link opening is rendered from its markdown unchanged. */
  lemma PostWithoutRelativeLinks(dir: Directory, slug: string, toHtml: string -> string)
    requires slug in dir.files && HasNoLinkOpening(dir.files[slug].content)
    ensures GetPostBySlug(dir, slug, toHtml).value.bodyHtml == toHtml(dir.files[slug].content)
  {
    RewriteWithoutLinksIsIdentity(dir.files[slug].content, BlogPrefix(slug));
  }
}
