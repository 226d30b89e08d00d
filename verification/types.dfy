/** The records shared by every content source (lib/types.ts), the failure
    values the sources throw, and JavaScript's `||` default on strings. */
module Types {

  datatype Option<+T> = None | Some(value: T) {
    function GetOr(default: T): T {
      match this
      case Some(v) => v
      case None => default
    }
  }

  datatype Result<+R> = Success(value: R) | Failure(error: Error)

  /** What the sources throw. The source throws strings and exception
      objects; the model names the kinds that occur, plus the one failure
      the model adds: giving up on a pending cache entry. */
  datatype Error =
    | NotFound                    // dev-api's `throw 'not found'`
    | FileMissing(path: string)   // readFileSync on a file that is not there
    | Upstream(reason: string)    // a failed fetch or listing, given as input
    | QueryErrors(messages: seq<string>)  // the `errors` a GraphQL query answers with
    | PollsExhausted              // the cache's bounded wait on a pending entry ran out

  datatype PostSummary = PostSummary(slug: string, title: string, date: string, description: string)

  datatype Dimensions = Dimensions(width: int, height: int)

  datatype Mirror = Mirror(site: string, postUrl: string)

  /** `prev` is the older neighbour, `next` the newer one; an absent key is None. */
  datatype RelatedPosts = RelatedPosts(prev: Option<PostSummary>, next: Option<PostSummary>)

  const NoRelatedPosts := RelatedPosts(None, None)

  /** A post as the sources build it. Fields the type declares but a source
      leaves undefined are None: the filesystem source sets no description,
      related posts or mirrors; the dev.to source also sets `socialImage`,
      which the declared type does not have. */
  datatype Post = Post(
    slug: string,
    title: string,
    description: Option<string>,
    date: string,
    bodyHtml: string,
    openGraphImage: Option<string>,
    coverImage: Option<string>,
    socialImage: Option<string>,
    coverImageDimensions: Option<Dimensions>,
    relatedPosts: Option<RelatedPosts>,
    mirrors: Option<seq<Mirror>>)

  /** JavaScript `x || d` where `x` is a string or undefined: the empty
      string and undefined are falsy. */
  function OrElse(x: Option<string>, d: string): (r: string)
    ensures x.Some? && x.value != "" ==> r == x.value
    ensures x.None? || x.value == "" ==> r == d
  {
    if x.Some? && x.value != "" then x.value else d
  }
}
