/** The catalog over both sources (lib/merged-api.ts): the filesystem posts
    and the dev.to posts in one newest-first listing, and lookup by slug that
    tries the filesystem first and dev.to second. */
module MergedApi {
  import opened Types
  import opened Catalog
  import FsApi
  import DevApi

  /** `getAllPosts`: `[...fs, ...dev].sort(...)` after `Promise.all`, so both
      listings must succeed. When both fail, `Promise.all` reports whichever
      rejects first; the model reports the filesystem's. */
  function GetAllPosts(postsDir: FsApi.Directory, listing: Result<seq<DevApi.Article>>): (r: Result<seq<PostSummary>>)
    ensures var fs := FsApi.GetAllPosts(postsDir);
            var dev := DevApi.GetAllPosts(listing);
            && (r.Success? <==> fs.Success? && dev.Success?)
            && (r.Failure? ==> (fs.Failure? && r.error == fs.error) || (dev.Failure? && r.error == dev.error))
            && (r.Success? ==> multiset(r.value) == multiset(fs.value) + multiset(dev.value))
            && (r.Success? ==> |r.value| == |fs.value| + |dev.value|)
            && (r.Success? ==> SortedByDateDesc(r.value))
  {
    match FsApi.GetAllPosts(postsDir)
    case Failure(e) => Failure(e)
    case Success(fs) =>
      match DevApi.GetAllPosts(listing)
      case Failure(e) => Failure(e)
      case Success(dev) => Success(SortByDateDesc(fs + dev))
  }

  /** `getPostBySlug`: the `try`/`catch` takes the filesystem's post when there
      is one, and otherwise whatever dev.to gives, its failure included. */
  function GetPostBySlug(slug: string, postsDir: FsApi.Directory, fetched: Result<DevApi.Article>,
                         stripFrontMatter: string -> string, toHtml: string -> string): (r: Result<Post>)
    ensures var fs := FsApi.GetPostBySlug(postsDir, slug, toHtml);
            && (fs.Success? ==> r == fs)
            && (fs.Failure? ==> r == DevApi.GetPostBySlug(slug, fetched, stripFrontMatter, toHtml))
  {
    match FsApi.GetPostBySlug(postsDir, slug, toHtml)
    case Success(post) => Success(post)
    case Failure(_) => DevApi.GetPostBySlug(slug, fetched, stripFrontMatter, toHtml)
  }

  /** A post on disk is served from disk, whatever dev.to would answer; with no
      file for the slug the answer is dev.to's, and a dev.to failure is what the
      caller sees. */
  lemma LookupPrefersFilesystem(slug: string, postsDir: FsApi.Directory, fetched: Result<DevApi.Article>,
                                other: Result<DevApi.Article>, strip: string -> string, toHtml: string -> string)
    ensures slug in postsDir.files ==>
              && GetPostBySlug(slug, postsDir, fetched, strip, toHtml) == GetPostBySlug(slug, postsDir, other, strip, toHtml)
              && GetPostBySlug(slug, postsDir, fetched, strip, toHtml).value.slug == slug
    ensures slug !in postsDir.files ==>
              GetPostBySlug(slug, postsDir, fetched, strip, toHtml) == DevApi.GetPostBySlug(slug, fetched, strip, toHtml)
    ensures slug !in postsDir.files && fetched.Success? && fetched.value.slug != slug ==>
              GetPostBySlug(slug, postsDir, fetched, strip, toHtml) == Failure(NotFound)
  {
  }

  /** Every post of either source is in the merged listing, and nothing else is. */
  lemma MergedListingHoldsBothSources(postsDir: FsApi.Directory, listing: Result<seq<DevApi.Article>>)
    requires GetAllPosts(postsDir, listing).Success?
    ensures var all := GetAllPosts(postsDir, listing).value;
            var fs := FsApi.GetAllPosts(postsDir).value;
            var dev := DevApi.GetAllPosts(listing).value;
            forall p :: p in all <==> p in fs || p in dev
  {
    var all := GetAllPosts(postsDir, listing).value;
    var fs := FsApi.GetAllPosts(postsDir).value;
    var dev := DevApi.GetAllPosts(listing).value;
    forall p ensures p in all <==> p in fs || p in dev {
      assert p in all <==> p in multiset(all);
      assert p in fs <==> p in multiset(fs);
      assert p in dev <==> p in multiset(dev);
    }
  }
}
