/** The catalog over the dev.to source (src/core/get-posts.ts): the listing
    newest first, and for one post its older (`prev`) and newer (`next`)
    neighbours in that listing. */
module CorePosts {
  import opened Types
  import opened Catalog
  import DevApi

  /** `getAllPosts`: the dev.to summaries, newest first. */
  function GetAllPosts(listing: Result<seq<DevApi.Article>>): (r: Result<seq<PostSummary>>)
    ensures r.Success? <==> listing.Success?
    ensures r.Failure? ==> r.error == listing.error
    ensures r.Success? ==> SortedByDateDesc(r.value)
    ensures r.Success? ==> multiset(r.value) == multiset(DevApi.GetAllPosts(listing).value)
  {
    match DevApi.GetAllPosts(listing)
    case Failure(e) => Failure(e)
    case Success(dev) => Success(SortByDateDesc(dev))
  }

  /** `i` is where `findIndex` stops: the first post with this slug. */
  predicate FirstWithSlug(posts: seq<PostSummary>, slug: string, i: int) {
    0 <= i < |posts| && posts[i].slug == slug && forall j :: 0 <= j < i ==> posts[j].slug != slug
  }

  /** `findIndex((p) => p.slug === slug)`. */
  function FindIndex(posts: seq<PostSummary>, slug: string): (i: int)
    ensures -1 <= i < |posts|
    ensures i == -1 <==> forall j :: 0 <= j < |posts| ==> posts[j].slug != slug
    ensures i != -1 ==> FirstWithSlug(posts, slug, i)
  {
    if posts == [] then -1
    else if posts[0].slug == slug then 0
    else
      var k := FindIndex(posts[1..], slug);
      if k == -1 then -1 else k + 1
  }

  /** The neighbours of `slug` in a newest-first listing: `prev` one place later
      (older), `next` one place earlier (newer); none for an unknown slug. */
  function RelatedIn(posts: seq<PostSummary>, slug: string): (r: RelatedPosts)
    ensures (forall j :: 0 <= j < |posts| ==> posts[j].slug != slug) ==> r == NoRelatedPosts
    ensures forall i :: FirstWithSlug(posts, slug, i) ==>
              && r.prev == (if i + 1 < |posts| then Some(posts[i + 1]) else None)
              && r.next == (if i > 0 then Some(posts[i - 1]) else None)
  {
    var index := FindIndex(posts, slug);
    if index > -1 then
      RelatedPosts(
        if index + 1 < |posts| then Some(posts[index + 1]) else None,
        if index - 1 >= 0 then Some(posts[index - 1]) else None)
    else NoRelatedPosts
  }

  /** `getRelatedPosts`: the neighbours in the current catalog; a failed listing fails the call. */
  function GetRelatedPosts(listing: Result<seq<DevApi.Article>>, slug: string): (r: Result<RelatedPosts>)
    ensures r.Success? <==> listing.Success?
    ensures r.Success? ==> r.value == RelatedIn(GetAllPosts(listing).value, slug)
  {
    match GetAllPosts(listing)
    case Failure(e) => Failure(e)
    case Success(all) => Success(RelatedIn(all, slug))
  }

  /** `getPostBySlug`: the dev.to post with its `relatedPosts` attached. The
      catalog is read first, so its failure is the one reported when both fail. */
  function GetPostBySlug(slug: string, listing: Result<seq<DevApi.Article>>, fetched: Result<DevApi.Article>,
                         stripFrontMatter: string -> string, toHtml: string -> string): (r: Result<Post>)
    ensures var post := DevApi.GetPostBySlug(slug, fetched, stripFrontMatter, toHtml);
            && (r.Success? <==> listing.Success? && post.Success?)
            && (listing.Failure? ==> r == Failure(listing.error))
            && (listing.Success? && post.Failure? ==> r == Failure(post.error))
            && (r.Success? ==> r.value.relatedPosts == Some(RelatedIn(GetAllPosts(listing).value, slug))
                               && r.value.(relatedPosts := post.value.relatedPosts) == post.value)
  {
    match GetRelatedPosts(listing, slug)
    case Failure(e) => Failure(e)
    case Success(related) =>
      match DevApi.GetPostBySlug(slug, fetched, stripFrontMatter, toHtml)
      case Failure(e) => Failure(e)
      case Success(post) => Success(post.(relatedPosts := Some(related)))
  }

  /** No slug appears twice. */
  predicate DistinctSlugs(posts: seq<PostSummary>) {
    forall i, j :: 0 <= i < j < |posts| ==> posts[i].slug != posts[j].slug
  }

  /** In a listing without repeated slugs the relation is symmetric: if `q` is the
      older neighbour of `p`, then `p` is the newer neighbour of `q`. */
  lemma RelatedSymmetric(posts: seq<PostSummary>, i: nat)
    requires DistinctSlugs(posts) && i + 1 < |posts|
    ensures RelatedIn(posts, posts[i].slug).prev == Some(posts[i + 1])
    ensures RelatedIn(posts, posts[i + 1].slug).next == Some(posts[i])
  {
    assert FirstWithSlug(posts, posts[i].slug, i);
    assert FirstWithSlug(posts, posts[i + 1].slug, i + 1);
  }

  /** The example catalog [A (newest), B, C (oldest)]. */
  lemma ThreePostCatalog(a: PostSummary, b: PostSummary, c: PostSummary)
    requires a.slug == "a" && b.slug == "b" && c.slug == "c"
    ensures RelatedIn([a, b, c], "b") == RelatedPosts(Some(c), Some(a))
    ensures RelatedIn([a, b, c], "a") == RelatedPosts(Some(b), None)
    ensures RelatedIn([a, b, c], "c") == RelatedPosts(None, Some(b))
    ensures RelatedIn([a, b, c], "d") == NoRelatedPosts
  {
    assert FirstWithSlug([a, b, c], "a", 0);
    assert FirstWithSlug([a, b, c], "b", 1);
    assert FirstWithSlug([a, b, c], "c", 2);
  }
}
