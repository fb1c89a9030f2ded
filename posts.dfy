/**
 * Converted posts, the published filter of the build loop, the two field
 * lists the script passes to enrichTemplate, and generatePostComponents.
 */
module Posts {
  import opened Wrappers
  import opened Errors
  import opened Templates

  /** What convertMarkdownToHTML returns: the HTML and the front-matter metadata. */
  datatype Converted = Converted(html: string, meta: map<string, string>)

  /** `post.meta[key]`, which is `undefined` when the key is absent. */
  function Meta(p: Converted, key: string): FieldValue
  {
    if key in p.meta then Str(p.meta[key]) else Undefined
  }

  /** `if (htmlContent.meta.published_at)`: the key is present and its value is not the empty string. */
  predicate IsPublished(p: Converted)
  {
    "published_at" in p.meta && p.meta["published_at"] != ""
  }

  /** The fields renderPost substitutes into the post template, in this order. */
  function PostFields(p: Converted): (fields: seq<Field>)
    ensures TokensNonEmpty(fields)
  {
    [("$post", Str(p.html)),
     ("$title", Meta(p, "title")),
     ("$updated_at", Meta(p, "updated_at")),
     ("$published_at", Meta(p, "published_at")),
     ("$published_by", Meta(p, "published_by"))]
  }

  /** The fields generatePostComponents substitutes into the post component, in this order. */
  function ComponentFields(p: Converted): (fields: seq<Field>)
    ensures TokensNonEmpty(fields)
  {
    [("$page", Meta(p, "page")),
     ("$title", Meta(p, "title")),
     ("$updated_at", Meta(p, "updated_at")),
     ("$short_description", Meta(p, "short_description"))]
  }

  /** The posts the build loop keeps, in listing order. */
  function Published(ps: seq<Converted>): (r: seq<Converted>)
    ensures |r| <= |ps|
    decreases |ps|
  {
    if ps == [] then []
    else
      (if IsPublished(ps[0]) then [ps[0]] else []) + Published(ps[1..])
  }

  /** A post is kept exactly when it is listed and published: unpublished posts are dropped, nothing else is. */
  lemma {:induction false} PublishedMembers(ps: seq<Converted>, p: Converted)
    ensures p in Published(ps) <==> p in ps && IsPublished(p)
    decreases |ps|
  {
    if ps != [] {
      PublishedMembers(ps[1..], p);
      assert p in ps <==> p == ps[0] || p in ps[1..];
    }
  }

  /** Filtering keeps the order: the published posts of `a + b` are those of `a`, then those of `b`. */
  lemma {:induction false} PublishedAppend(a: seq<Converted>, b: seq<Converted>)
    ensures Published(a + b) == Published(a) + Published(b)
    decreases |a|
  {
    if a == [] {
      assert a + b == b;
    } else {
      var h := if IsPublished(a[0]) then [a[0]] else [];
      var x, y := Published(a[1..]), Published(b);
      assert (a + b)[0] == a[0];
      assert (a + b)[1..] == a[1..] + b;
      assert Published(a + b) == h + Published(a[1..] + b);
      PublishedAppend(a[1..], b);
      assert h + (x + y) == (h + x) + y;
    }
  }

  /** The fragment of one post: the component enriched with the post's four fields. */
  function Fragment(component: string, p: Converted, optimize: Optimizer): Result<string, Error>
  {
    Enrich(component, ComponentFields(p), optimize)
  }

  /** The arrow generatePostComponents passes to `map`. */
  function FragmentOf(component: string, optimize: Optimizer): Converted -> Result<string, Error>
  {
    p => Fragment(component, p, optimize)
  }

  /** Post `k` is the first whose rendering fails, and it fails with `e`. */
  predicate FirstFailure(render: Converted -> Result<string, Error>, posts: seq<Converted>, k: int, e: Error)
  {
    0 <= k < |posts| && render(posts[k]) == Err(e)
    && forall j :: 0 <= j < k ==> render(posts[j]).Ok?
  }

  /** `posts.map(render)`: the renderings in order, or the error of the first post whose rendering throws. */
  function Fragments(render: Converted -> Result<string, Error>, posts: seq<Converted>): (r: Result<seq<string>, Error>)
    ensures r.Ok? ==> |r.value| == |posts|
    ensures r.Ok? ==> forall i :: 0 <= i < |posts| ==> render(posts[i]) == Ok(r.value[i])
    ensures r.Err? ==> exists k :: FirstFailure(render, posts, k, r.error)
    decreases |posts|
  {
    if posts == [] then Ok([])
    else
      match render(posts[0])
      case Err(e) =>
        assert FirstFailure(render, posts, 0, e);
        Err(e)
      case Ok(f) =>
        match Fragments(render, posts[1..])
        case Err(e) =>
          var k :| FirstFailure(render, posts[1..], k, e);
          assert FirstFailure(render, posts, k + 1, e);
          Err(e)
        case Ok(fs) => Ok([f] + fs)
  }

  /** `.join("")`: the strings concatenated in order, with no separator. */
  function Join(fs: seq<string>): string
  {
    if fs == [] then "" else fs[0] + Join(fs[1..])
  }

  lemma {:induction false} JoinAppend(a: seq<string>, b: seq<string>)
    ensures Join(a + b) == Join(a) + Join(b)
  {
    if a == [] {
      assert a + b == b;
    } else {
      assert (a + b)[1..] == a[1..] + b;
      JoinAppend(a[1..], b);
    }
  }

  /** `posts.map(render).join("")`. */
  function MapJoin(render: Converted -> Result<string, Error>, posts: seq<Converted>): (r: Result<string, Error>)
    ensures posts == [] ==> r == Ok("")
    ensures r.Ok? <==> forall i :: 0 <= i < |posts| ==> render(posts[i]).Ok?
  {
    match Fragments(render, posts)
    case Err(e) => Err(e)
    case Ok(fs) => Ok(Join(fs))
  }

  lemma MapJoinOne(render: Converted -> Result<string, Error>, p: Converted)
    ensures MapJoin(render, [p]) == render(p)
  {
    assert [p][1..] == [];
    match render(p)
    case Err(_) =>
    case Ok(f) =>
      assert [f] + [] == [f];
      assert Fragments(render, [p]) == Ok([f]);
      assert [f][1..] == [];
      assert Join([f]) == f + Join([]);
      assert f + "" == f;
  }

  /** The renderings of `a + b` are those of `a` followed by those of `b`, unless one fails first. */
  lemma {:induction false} FragmentsAppend(render: Converted -> Result<string, Error>, a: seq<Converted>, b: seq<Converted>)
    ensures var fa, fb := Fragments(render, a), Fragments(render, b);
            Fragments(render, a + b) == if fa.Err? then fa else if fb.Err? then fb else Ok(fa.value + fb.value)
    decreases |a|
  {
    if a == [] {
      assert a + b == b;
      match Fragments(render, b)
      case Err(_) =>
      case Ok(gs) => assert [] + gs == gs;
    } else {
      assert (a + b)[0] == a[0];
      assert (a + b)[1..] == a[1..] + b;
      FragmentsAppend(render, a[1..], b);
      match render(a[0])
      case Err(_) =>
      case Ok(f) =>
        match Fragments(render, a[1..])
        case Err(_) =>
        case Ok(fs) =>
          match Fragments(render, b)
          case Err(_) =>
          case Ok(gs) => assert [f] + (fs + gs) == [f] + fs + gs;
    }
  }

  lemma MapJoinAppend(render: Converted -> Result<string, Error>, a: seq<Converted>, b: seq<Converted>)
    ensures var ra, rb := MapJoin(render, a), MapJoin(render, b);
            MapJoin(render, a + b) == if ra.Err? then ra else if rb.Err? then rb else Ok(ra.value + rb.value)
  {
    FragmentsAppend(render, a, b);
    match Fragments(render, a)
    case Err(_) =>
    case Ok(fs) =>
      match Fragments(render, b)
      case Err(_) =>
      case Ok(gs) => JoinAppend(fs, gs);
  }

  /** generatePostComponents: each post's fragment, concatenated in order; "" for no posts. */
  function GeneratePostComponents(component: string, posts: seq<Converted>, optimize: Optimizer): (r: Result<string, Error>)
    ensures posts == [] ==> r == Ok("")
    ensures r.Ok? <==> forall i :: 0 <= i < |posts| ==> Fragment(component, posts[i], optimize).Ok?
  {
    MapJoin(FragmentOf(component, optimize), posts)
  }

  /** The components of one post are its fragment. */
  lemma ComponentsOfOne(component: string, p: Converted, optimize: Optimizer)
    ensures GeneratePostComponents(component, [p], optimize) == Fragment(component, p, optimize)
  {
    MapJoinOne(FragmentOf(component, optimize), p);
  }

  /**
   * The components of `a + b` are those of `a` followed by those of `b`;
   * when a fragment fails, the first failure is the result.
   */
  lemma ComponentsAppend(component: string, a: seq<Converted>, b: seq<Converted>, optimize: Optimizer)
    ensures var ra, rb := GeneratePostComponents(component, a, optimize), GeneratePostComponents(component, b, optimize);
            GeneratePostComponents(component, a + b, optimize) ==
              if ra.Err? then ra else if rb.Err? then rb else Ok(ra.value + rb.value)
  {
    MapJoinAppend(FragmentOf(component, optimize), a, b);
  }
}
