/** The stand-alone page loader (lib/get-page.ts): a page is the `index.md`
    of a directory under `public/pages`. It repeats `getPage` of lib/fs-api.ts
    line for line. */
module PageApi {
  import opened Types
  import opened LinkRewrite
  import FsApi

  /** `getPage`: relative links point to `/pages/<slug>/`; a missing title or
      description becomes "". */
  function GetPage(dir: FsApi.Directory, slug: string, toHtml: string -> string): (r: Result<FsApi.Page>)
    ensures r.Success? <==> slug in dir.files
    ensures r.Failure? ==> r.error == FileMissing(FsApi.IndexPath(FsApi.PagesDirectory, slug))
    ensures r.Success? ==>
              var data := dir.files[slug].data;
              && (data.title.None? || data.title.value == "" ==> r.value.title == "")
              && (data.title.Some? && data.title.value != "" ==> r.value.title == data.title.value)
              && (data.description.None? || data.description.value == "" ==> r.value.description == "")
              && (data.description.Some? && data.description.value != "" ==> r.value.description == data.description.value)
  {
    if slug !in dir.files then Failure(FileMissing(FsApi.IndexPath(FsApi.PagesDirectory, slug)))
    else
      var file := dir.files[slug];
      var bodyMarkdown := Rewrite(file.content, "/pages/" + slug + "/");
      Success(FsApi.Page(OrElse(file.data.title, ""), OrElse(file.data.description, ""), toHtml(bodyMarkdown)))
  }

  /** The two `getPage` functions of the repository give the same page. */
  lemma SameAsFsApiGetPage(dir: FsApi.Directory, slug: string, toHtml: string -> string)
    ensures GetPage(dir, slug, toHtml) == FsApi.GetPage(dir, slug, toHtml)
  {
  }

  /** A page with no `(c/` in its markdown is rendered from that markdown unchanged. */
  lemma PageWithoutLinks(dir: FsApi.Directory, slug: string, toHtml: string -> string)
    requires slug in dir.files && HasNoLinkOpening(dir.files[slug].content)
    ensures GetPage(dir, slug, toHtml).value.bodyHtml == toHtml(dir.files[slug].content)
  {
    RewriteWithoutLinksIsIdentity(dir.files[slug].content, "/pages/" + slug + "/");
  }

  /** A page whose markdown is the single link `(c/x)` links to `/pages/<slug>/x`. */
  lemma PageWithOneLink(dir: FsApi.Directory, slug: string, toHtml: string -> string, c: char, x: string)
    requires slug in dir.files && dir.files[slug].content == ['(', c, '/'] + x + [')']
    requires !IsLineTerminator(c) && |x| > 0 && (forall i :: 0 <= i < |x| ==> !IsLineTerminator(x[i]))
    ensures GetPage(dir, slug, toHtml).value.bodyHtml == toHtml("(/pages/" + slug + "/" + x + ")")
  {
    var prefix := "/pages/" + slug + "/";
    RewriteOneLink(c, x, prefix);
    assert "(" + prefix + x + ")" == "(/pages/" + slug + "/" + x + ")";
  }
}
