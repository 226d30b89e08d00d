/** The static-site page generation (gatsby-node.js): for every markdown node
    of a type, one page request whose context names the node's neighbours in
    the newest-first query result. GraphQL, `path.resolve` and
    `createFilePath` are outside the model and passed in as functions. */
module GatsbyNode {
  import opened Types
  import Catalog
  import CorePosts

  /** The fields the query selects: `fields.slug`, `frontmatter.title` and `frontmatter.type`. */
  datatype Node = Node(slug: string, title: string, kind: string)

  datatype Edge = Edge(node: Node)

  /** What the query answers: `errors` is present (an array, so truthy even
      when empty) or absent, next to the edges. */
  datatype QueryResult = QueryResult(errors: Option<seq<string>>, edges: seq<Edge>)

  /** `previous` is the older neighbour (one place later), `next` the newer one. */
  datatype PageContext = PageContext(slug: string, previous: Option<Node>, next: Option<Node>)

  /** The argument of one `createPage` call. */
  datatype PageRequest = PageRequest(path: string, component: string, context: PageContext)

  const QueryHead := "\n  {\n    allMarkdownRemark(\n      filter: {frontmatter: {type: {eq: \""
  const QueryTail := "\"}}}\n      sort: { fields: [frontmatter___date], order: DESC }\n      limit: 1000\n    ) {\n      edges {\n        node {\n          fields {\n            slug\n          }\n          frontmatter {\n            title\n            type\n          }\n        }\n      }\n    }\n  }\n"

  /** `getQueryForType`: the query of every markdown node of one type, newest first, at most 1000. */
  function QueryForType(kind: string): (q: string)
    ensures |q| == |QueryHead| + |kind| + |QueryTail|
    ensures q[..|QueryHead|] == QueryHead && q[|QueryHead|..|QueryHead| + |kind|] == kind
  {
    QueryHead + kind + QueryTail
  }

  /** Different types give different queries. */
  lemma QueryForTypeInjective(a: string, b: string)
    requires QueryForType(a) == QueryForType(b)
    ensures a == b
  {
    var q := QueryForType(a);
    assert |a| == |b|;
    assert a == q[|QueryHead|..|QueryHead| + |a|];
  }

  /** `getPagesOfType`: a query answering with errors throws them. */
  function GetPagesOfType(graphql: string -> QueryResult, kind: string): (r: Result<seq<Edge>>)
    ensures r.Failure? <==> graphql(QueryForType(kind)).errors.Some?
    ensures r.Failure? ==> r.error == QueryErrors(graphql(QueryForType(kind)).errors.value)
    ensures r.Success? ==> r.value == graphql(QueryForType(kind)).edges
  {
    var pages := graphql(QueryForType(kind));
    if pages.errors.Some? then Failure(QueryErrors(pages.errors.value)) else Success(pages.edges)
  }

  /** The page request for the post at `index`. */
  function PageFor(posts: seq<Edge>, index: nat, component: string): (p: PageRequest)
    requires index < |posts|
    ensures p.path == posts[index].node.slug && p.context.slug == posts[index].node.slug
    ensures p.component == component
    ensures p.context.previous.None? <==> index == |posts| - 1
    ensures p.context.previous.Some? ==> p.context.previous.value == posts[index + 1].node
    ensures p.context.next.None? <==> index == 0
    ensures p.context.next.Some? ==> p.context.next.value == posts[index - 1].node
  {
    var previous := if index == |posts| - 1 then None else Some(posts[index + 1].node);
    var next := if index == 0 then None else Some(posts[index - 1].node);
    PageRequest(posts[index].node.slug, component, PageContext(posts[index].node.slug, previous, next))
  }

  /** `createPages`: the `forEach` loop, one `createPage` call per post, in the
      order of the posts. The calls are returned in the order they are made. */
  method CreatePages(posts: seq<Edge>, component: string) returns (created: seq<PageRequest>)
    ensures |created| == |posts|
    ensures forall i :: 0 <= i < |posts| ==> created[i] == PageFor(posts, i, component)
  {
    created := [];
    for index := 0 to |posts|
      invariant |created| == index
      invariant forall i :: 0 <= i < index ==> created[i] == PageFor(posts, i, component)
    {
      var previous := if index == |posts| - 1 then None else Some(posts[index + 1].node);
      var next := if index == 0 then None else Some(posts[index - 1].node);
      var slug := posts[index].node.slug;
      created := created + [PageRequest(slug, component, PageContext(slug, previous, next))];
    }
  }

  /** Neighbouring pages point at each other: page i's `next` is post i-1 and
      page i-1's `previous` is post i. */
  lemma NeighboursPointAtEachOther(posts: seq<Edge>, component: string, i: nat)
    requires 0 < i < |posts|
    ensures PageFor(posts, i, component).context.next == Some(posts[i - 1].node)
    ensures PageFor(posts, i - 1, component).context.previous == Some(posts[i].node)
  {
  }

  /** The pages compute the same neighbours as `getRelatedPosts` over a
      listing in the same order with distinct slugs: `previous` is the catalog's
      `prev` and `next` its `next`. */
  lemma SameNeighboursAsCatalog(posts: seq<Edge>, summaries: seq<PostSummary>, component: string, i: nat)
    requires |posts| == |summaries| && i < |posts|
    requires forall k :: 0 <= k < |posts| ==> posts[k].node.slug == summaries[k].slug
    requires CorePosts.DistinctSlugs(summaries)
    ensures var page := PageFor(posts, i, component);
            var related := CorePosts.RelatedIn(summaries, page.context.slug);
            && (page.context.previous.None? <==> related.prev.None?)
            && (page.context.previous.Some? ==> page.context.previous.value.slug == related.prev.value.slug)
            && (page.context.next.None? <==> related.next.None?)
            && (page.context.next.Some? ==> page.context.next.value.slug == related.next.value.slug)
  {
    assert CorePosts.FirstWithSlug(summaries, summaries[i].slug, i);
  }

  /** Where the page template of a type lives. */
  function TemplatePath(kind: string): string {
    "./src/templates/" + kind + ".js"
  }

  /** `metaCreatePagesOfType`: query the posts of one type and create their
      pages with that type's template; a failed query creates nothing. */
  method MetaCreatePagesOfType(graphql: string -> QueryResult, resolve: string -> string, kind: string)
    returns (r: Result<seq<PageRequest>>)
    ensures var query := GetPagesOfType(graphql, kind);
            && (r.Failure? <==> query.Failure?)
            && (r.Failure? ==> r.error == query.error)
            && (r.Success? ==> |r.value| == |query.value|
                               && forall i :: 0 <= i < |query.value| ==>
                                    r.value[i] == PageFor(query.value, i, resolve(TemplatePath(kind))))
  {
    var blogPosts := GetPagesOfType(graphql, kind);
    if blogPosts.Failure? {
      return Failure(blogPosts.error);
    }
    var created := CreatePages(blogPosts.value, resolve(TemplatePath(kind)));
    r := Success(created);
  }

  /** `exports.createPages`: the blog posts, then the pages, each type with its
      own neighbours. A failed query stops the run: what was created before it
      stays created, and the failure is reported. */
  method CreateSitePages(graphql: string -> QueryResult, resolve: string -> string)
    returns (created: seq<PageRequest>, failure: Option<Error>)
    ensures GetPagesOfType(graphql, "blog-post").Failure? ==>
              created == [] && failure == Some(GetPagesOfType(graphql, "blog-post").error)
    ensures GetPagesOfType(graphql, "blog-post").Success? && GetPagesOfType(graphql, "page").Failure? ==>
              failure == Some(GetPagesOfType(graphql, "page").error)
    ensures failure.None? <==> GetPagesOfType(graphql, "blog-post").Success? && GetPagesOfType(graphql, "page").Success?
    ensures GetPagesOfType(graphql, "blog-post").Success? ==>
              var posts := GetPagesOfType(graphql, "blog-post").value;
              var pages := GetPagesOfType(graphql, "page");
              && |created| == |posts| + (if pages.Success? then |pages.value| else 0)
              && (forall i :: 0 <= i < |posts| ==>
                    created[i] == PageFor(posts, i, resolve(TemplatePath("blog-post"))))
              && (pages.Success? ==> forall i :: 0 <= i < |pages.value| ==>
                    created[|posts| + i] == PageFor(pages.value, i, resolve(TemplatePath("page"))))
  {
    created, failure := [], None;
    var blogPages := MetaCreatePagesOfType(graphql, resolve, "blog-post");
    if blogPages.Failure? {
      failure := Some(blogPages.error);
      return;
    }
    created := blogPages.value;
    var plainPages := MetaCreatePagesOfType(graphql, resolve, "page");
    if plainPages.Failure? {
      failure := Some(plainPages.error);
      return;
    }
    created := created + plainPages.value;
  }

  /** A node as `onCreateNode` sees it: its `internal.type` and its fields. */
  datatype SourceNode = SourceNode(internalType: string, fields: map<string, string>)

  /** `onCreateNode`: a markdown node gets a `slug` field holding its file path
      (what `createFilePath` computes, passed in); other nodes are left alone. */
  function OnCreateNode(node: SourceNode, filePath: string): (r: SourceNode)
    ensures r.internalType == node.internalType
    ensures node.internalType == "MarkdownRemark" ==> "slug" in r.fields && r.fields["slug"] == filePath
    ensures node.internalType != "MarkdownRemark" ==> r == node
    ensures forall k :: k != "slug" ==> (k in r.fields <==> k in node.fields)
    ensures forall k :: k != "slug" && k in node.fields ==> r.fields[k] == node.fields[k]
  {
    if node.internalType == "MarkdownRemark" then node.(fields := node.fields["slug" := filePath]) else node
  }
}
