/** The blog widget once the response has arrived: which posts become cards,
    what each card holds, and when the empty or the error message is shown
    instead. The request itself is not modelled. */
module Blog {
  import opened Wrappers
  import opened Escaping

  /** The publication the posts come from. */
  const BlogHost: string := "adeloli.hashnode.dev"

  /** At most this many posts are rendered. */
  const MaxCards: nat := 4

  /** A post node of the response; each field may be absent or null. */
  datatype Post = Post(title: Option<string>, brief: Option<string>, slug: Option<string>,
                       url: Option<string>, coverUrl: Option<string>)

  /** An element of `edges`: null, or an object whose `node` may be missing. */
  datatype Edge = NullEdge | Edge(node: Option<Post>)

  /** How the request settled: `fetch` or the JSON parsing threw, or the body
      was parsed and `data.publication.posts.edges` is missing (`None`) or a list. */
  datatype Response = Failed | Parsed(edges: Option<seq<Edge>>)

  /** What one rendered card shows: its link, the escaped title and excerpt,
      and the cover image address ("" for the "No Image" placeholder). */
  datatype Card = Card(href: string, title: string, brief: string, image: string)

  /** What the list ends up showing. */
  datatype View = NoPosts | Cards(cards: seq<Card>) | LoadError

  function Min(a: nat, b: nat): nat {
    if a <= b then a else b
  }

  /** `edges.map(e => e.node)`: every edge is read, and reading `node` of a
      null edge throws. */
  function Nodes(edges: seq<Edge>): (r: Option<seq<Option<Post>>>)
    ensures r.None? <==> exists i :: 0 <= i < |edges| && edges[i].NullEdge?
    ensures r.Some? ==> |r.value| == |edges|
    ensures r.Some? ==> forall i :: 0 <= i < |edges| ==> r.value[i] == edges[i].node
  {
    if edges == [] then Some([])
    else if edges[0].NullEdge? then None
    else match Nodes(edges[1..])
      case None => None
      case Some(rest) => Some([edges[0].node] + rest)
  }

  /** `.slice(0, 4)`. */
  function Select(nodes: seq<Option<Post>>): (r: seq<Option<Post>>)
    ensures |r| == Min(MaxCards, |nodes|)
    ensures r <= nodes
  {
    if |nodes| <= MaxCards then nodes else nodes[..MaxCards]
  }

  /** A slug as a template string prints it; an absent one prints "undefined". */
  function SlugText(slug: Option<string>): string {
    slug.GetOr("undefined")
  }

  /** The card's link: the post's own `url`, or the address built from the
      host and the slug when `url` is absent or empty. */
  function PostUrl(p: Post): (u: string)
    ensures p.url.Some? && p.url.value != [] ==> u == p.url.value
    ensures p.url.None? || p.url.value == [] ==> u == "https://" + BlogHost + "/" + SlugText(p.slug)
  {
    if p.url.Some? && p.url.value != [] then p.url.value
    else "https://" + BlogHost + "/" + SlugText(p.slug)
  }

  /** One card: the title and the brief go through `escapeHTML`, so both are
      safe text that decodes back to the post's own field (an absent one to
      ""); the link is the post's address and the image its cover, if any. */
  function CardOf(p: Post): (c: Card)
    ensures SafeText(c.title) && SafeText(c.brief)
    ensures Unescape(c.title) == p.title.GetOr("") && Unescape(c.brief) == p.brief.GetOr("")
    ensures c.href == PostUrl(p)
    ensures p.coverUrl.Some? ==> c.image == p.coverUrl.value
    ensures p.coverUrl.None? ==> c.image == ""
  {
    EscapeHtmlSafe(p.title);
    EscapeHtmlSafe(p.brief);
    UnescapeEscape(p.title.GetOr(""));
    UnescapeEscape(p.brief.GetOr(""));
    Card(PostUrl(p), EscapeHtml(p.title), EscapeHtml(p.brief), p.coverUrl.GetOr(""))
  }

  /** The cards of the selected posts; a missing node makes `post.title`
      throw, which ends in the error message. */
  function Render(posts: seq<Option<Post>>): (r: Option<seq<Card>>)
    ensures r.None? <==> exists i :: 0 <= i < |posts| && posts[i].None?
    ensures r.Some? ==> |r.value| == |posts|
    ensures r.Some? ==> forall i :: 0 <= i < |posts| ==> r.value[i] == CardOf(posts[i].value)
  {
    if posts == [] then Some([])
    else if posts[0].None? then None
    else match Render(posts[1..])
      case None => None
      case Some(rest) => Some([CardOf(posts[0].value)] + rest)
  }

  predicate HasNullEdge(edges: seq<Edge>) {
    exists i :: 0 <= i < |edges| && edges[i].NullEdge?
  }

  /** Some edge among the first four is an object without a post. */
  predicate MissingNodeShown(edges: seq<Edge>) {
    exists i :: 0 <= i < Min(MaxCards, |edges|) && edges[i].Edge? && edges[i].node.None?
  }

  /** `loadHashnodeCards` after the request: what the list shows. A failed
      request, a null edge anywhere in the list, or an edge without a post
      among the first four gives the error message; no edges give the empty
      message; otherwise the cards of the first `min(4, |edges|)` posts, in order. */
  function Load(response: Response): (v: View)
    ensures response.Parsed? && response.edges.GetOr([]) == [] ==> v == NoPosts
    ensures v == NoPosts ==> response.Parsed? && response.edges.GetOr([]) == []
    ensures v == LoadError <==> response.Failed? || HasNullEdge(response.edges.GetOr([]))
                                || MissingNodeShown(response.edges.GetOr([]))
    ensures v.Cards? ==> var es := response.edges.GetOr([]);
      |v.cards| == Min(MaxCards, |es|)
      && forall i :: 0 <= i < |v.cards| ==> v.cards[i] == CardOf(es[i].node.value)
  {
    match response
    case Failed => LoadError
    case Parsed(found) =>
      match Nodes(found.GetOr([]))
      case None => LoadError
      case Some(nodes) =>
        var posts := Select(nodes);
        if posts == [] then NoPosts
        else match Render(posts)
          case None => LoadError
          case Some(cards) => Cards(cards)
  }

  /** Every edge is an object with a post. */
  predicate WellFormed(edges: seq<Edge>) {
    forall i :: 0 <= i < |edges| ==> edges[i].Edge? && edges[i].node.Some?
  }

  /** With well-formed edges: none gives the empty message, otherwise one card
      per edge for the first `min(4, |edges|)` edges, in order. A missing
      `edges` path counts as none. */
  lemma LoadWellFormed(edges: seq<Edge>)
    requires WellFormed(edges)
    ensures edges == [] ==> Load(Parsed(Some(edges))) == NoPosts
    ensures Load(Parsed(None)) == NoPosts
    ensures edges != [] ==> Load(Parsed(Some(edges))).Cards?
    ensures Load(Parsed(Some(edges))).Cards? ==>
      var cards := Load(Parsed(Some(edges))).cards;
      |cards| == Min(MaxCards, |edges|)
      && forall i :: 0 <= i < |cards| ==> cards[i] == CardOf(edges[i].node.value)
  {
    var nodes := Nodes(edges);
    assert nodes.Some?;
    var posts := Select(nodes.value);
    assert forall i :: 0 <= i < |posts| ==> posts[i] == nodes.value[i];
    assert Render(posts).Some?;
  }

  /** Seven well-formed edges give exactly four cards. */
  lemma SevenEdgesFourCards(edges: seq<Edge>)
    requires WellFormed(edges) && |edges| == 7
    ensures Load(Parsed(Some(edges))).Cards?
    ensures |Load(Parsed(Some(edges))).cards| == 4
  {
    LoadWellFormed(edges);
  }

  /** A null edge fails the whole load even where it would not be rendered,
      since every edge is read before the first four are kept. */
  lemma NullEdgeFailsLoad(edges: seq<Edge>, i: nat)
    requires i < |edges| && edges[i].NullEdge?
    ensures Load(Parsed(Some(edges))) == LoadError
  {
  }

  /** The title and the excerpt of every card are safe text. */
  lemma CardsAreEscaped(response: Response)
    requires Load(response).Cards?
    ensures forall i :: 0 <= i < |Load(response).cards| ==>
      SafeText(Load(response).cards[i].title) && SafeText(Load(response).cards[i].brief)
  {
    var cards := Load(response).cards;
    var nodes := Nodes(response.edges.GetOr([])).value;
    var posts := Select(nodes);
    forall i | 0 <= i < |cards|
      ensures SafeText(cards[i].title) && SafeText(cards[i].brief)
    {
      var p := posts[i].value;
      assert cards[i] == CardOf(p);
    }
  }
}
