/**
 * What one run of the build script computes, as functions of its
 * configuration and of the file system it reads: the loop over the
 * listed post files, the pages it writes, the home page, and the error
 * that stops the run.
 */
module BuildSpec {
  import opened Wrappers
  import opened Strings
  import opened Errors
  import opened Templates
  import opened Posts

  /**
   * What the script fixes before `main` runs: the two directories, the
   * three templates it has read, the Markdown converter and the minifier.
   */
  datatype Site = Site(
    distPath: string,
    postsPath: string,
    homeTemplate: string,
    postTemplate: string,
    postComponent: string,
    convert: string -> Converted,
    optimize: Optimizer)

  /** The file system outside the output directory, as the build finds it. */
  datatype Disk = Disk(
    listing: Option<seq<string>>, // the entries of the posts directory; None when it cannot be listed
    files: map<string, string>,   // the files that can be read, by path
    distCreatable: bool,          // whether the output directory can be created once it is removed
    unwritable: set<string>)      // the names in the output directory that cannot be written

  /** The name renderHome writes (HOME_PATH). */
  const HomeName := "index.html"

  /** getPostFileMDContent. */
  function ReadPost(site: Site, disk: Disk, name: string): Result<string, Error>
  {
    var path := JoinPath(site.postsPath, name);
    if path in disk.files then Ok(disk.files[path]) else Err(FileNotFound(path))
  }

  predicate Readable(site: Site, disk: Disk, name: string)
  {
    JoinPath(site.postsPath, name) in disk.files
  }

  /** `fs.writeFileSync` of `name` in the output directory; an empty name is the directory itself. */
  predicate Writable(disk: Disk, name: string)
  {
    name != "" && name !in disk.unwritable
  }

  /** The output directory after writing `content` to `name`. */
  function Write(site: Site, disk: Disk, out: map<string, string>, name: string, content: string): Result<map<string, string>, Error>
  {
    if Writable(disk, name) then Ok(out[name := content]) else Err(WriteFailed(JoinPath(site.distPath, name)))
  }

  /** The HTML of a post's page: the post template enriched with the post's five fields. */
  function PostPage(site: Site, p: Converted): Result<string, Error>
  {
    Enrich(site.postTemplate, PostFields(p), site.optimize)
  }

  /** renderPost; the path is joined first, so a post without `page` fails before anything else. */
  function RenderPost(site: Site, disk: Disk, out: map<string, string>, p: Converted): Result<map<string, string>, Error>
  {
    if "page" !in p.meta then Err(InvalidPathArgument)
    else
      match PostPage(site, p)
      case Err(e) => Err(e)
      case Ok(html) => Write(site, disk, out, p.meta["page"], html)
  }

  /** The HTML of the home page: the home template with `$posts` replaced by the components. */
  function HomePage(site: Site, posts: seq<Converted>): Result<string, Error>
  {
    match GeneratePostComponents(site.postComponent, posts, site.optimize)
    case Err(e) => Err(e)
    case Ok(components) => Enrich(site.homeTemplate, [("$posts", Str(components))], site.optimize)
  }

  /** renderHome. */
  function RenderHome(site: Site, disk: Disk, out: map<string, string>, posts: seq<Converted>): Result<map<string, string>, Error>
  {
    match HomePage(site, posts)
    case Err(e) => Err(e)
    case Ok(html) => Write(site, disk, out, HomeName, html)
  }

  /** The output directory and the `posts` array while the loop runs. */
  datatype LoopState = LoopState(out: map<string, string>, posts: seq<Converted>)

  /** The body of the forEach callback for one entry. */
  function Visit(site: Site, disk: Disk, st: LoopState, name: string): Result<LoopState, Error>
  {
    match ReadPost(site, disk, name)
    case Err(e) => Err(e)
    case Ok(md) =>
      var p := site.convert(md);
      if !IsPublished(p) then Ok(st)
      else
        match RenderPost(site, disk, st.out, p)
        case Err(e) => Err(e)
        case Ok(out) => Ok(LoopState(out, st.posts + [p]))
  }

  /** The loop over `names`, from an empty output directory; the first error stops it. */
  function VisitAll(site: Site, disk: Disk, names: seq<string>): Result<LoopState, Error>
    decreases |names|
  {
    if names == [] then Ok(LoopState(map[], []))
    else
      match VisitAll(site, disk, names[..|names| - 1])
      case Err(e) => Err(e)
      case Ok(st) => Visit(site, disk, st, names[|names| - 1])
  }

  /** main: the contents of the output directory after a successful run, or the error it re-raises. */
  function Build(site: Site, disk: Disk): Result<map<string, string>, Error>
  {
    if !disk.distCreatable then Err(MkdirFailed(site.distPath))
    else
      match disk.listing
      case None => Err(DirectoryNotFound(site.postsPath))
      case Some(names) =>
        match VisitAll(site, disk, names)
        case Err(e) => Err(e)
        case Ok(st) => RenderHome(site, disk, st.out, st.posts)
  }

  // ---------------------------------------------------------------------
  // The reference description of a successful loop

  predicate AllReadable(site: Site, disk: Disk, names: seq<string>)
  {
    forall i :: 0 <= i < |names| ==> Readable(site, disk, names[i])
  }

  /** The converted posts, in listing order. */
  function ConvertAll(site: Site, disk: Disk, names: seq<string>): (ps: seq<Converted>)
    requires AllReadable(site, disk, names)
    ensures |ps| == |names|
    decreases |names|
  {
    if names == [] then []
    else
      var init := names[..|names| - 1];
      assert forall i :: 0 <= i < |init| ==> init[i] == names[i];
      ConvertAll(site, disk, init) + [site.convert(disk.files[JoinPath(site.postsPath, names[|names| - 1])])]
  }

  /** A post that has a page name and a page it can be rendered to. */
  predicate Renderable(site: Site, p: Converted)
  {
    "page" in p.meta && PostPage(site, p).Ok?
  }

  predicate AllRenderable(site: Site, ps: seq<Converted>)
  {
    forall i :: 0 <= i < |ps| ==> Renderable(site, ps[i])
  }

  /** Every post can be rendered, and written under its page name. */
  predicate AllWritable(site: Site, disk: Disk, ps: seq<Converted>)
  {
    AllRenderable(site, ps) && forall i :: 0 <= i < |ps| ==> Writable(disk, ps[i].meta["page"])
  }

  /** The page names of the posts. */
  function Pages(ps: seq<Converted>): (pages: set<string>)
    requires forall i :: 0 <= i < |ps| ==> "page" in ps[i].meta
    decreases |ps|
  {
    if ps == [] then {}
    else
      var init := ps[..|ps| - 1];
      assert forall i :: 0 <= i < |init| ==> init[i] == ps[i];
      Pages(init) + {ps[|ps| - 1].meta["page"]}
  }

  /** The pages of the posts written one after the other: a later post with the same page name overwrites. */
  function Rendered(site: Site, ps: seq<Converted>): (out: map<string, string>)
    requires AllRenderable(site, ps)
    decreases |ps|
  {
    if ps == [] then map[]
    else
      var init, last := ps[..|ps| - 1], ps[|ps| - 1];
      assert forall i :: 0 <= i < |init| ==> init[i] == ps[i];
      Rendered(site, init)[last.meta["page"] := PostPage(site, last).value]
  }

  /** The pages written are exactly the page names of the posts. */
  lemma {:induction false} RenderedKeys(site: Site, ps: seq<Converted>)
    requires AllRenderable(site, ps)
    ensures Rendered(site, ps).Keys == Pages(ps)
    decreases |ps|
  {
    if ps != [] {
      var init := ps[..|ps| - 1];
      assert forall i :: 0 <= i < |init| ==> init[i] == ps[i];
      RenderedKeys(site, init);
    }
  }

  /** The loop succeeds when every entry can be read and every published post rendered and written. */
  predicate LoopSucceeds(site: Site, disk: Disk, names: seq<string>)
  {
    AllReadable(site, disk, names) && AllWritable(site, disk, Published(ConvertAll(site, disk, names)))
  }

  // ---------------------------------------------------------------------
  // Lemmas

  /**
   * The loop succeeds exactly when every entry is readable and every
   * published post can be rendered and written; then `posts` is the
   * published posts in listing order and the output directory holds their
   * pages, the last post with a given page name winning.
   */
  lemma {:induction false} VisitAllSpec(site: Site, disk: Disk, names: seq<string>)
    ensures VisitAll(site, disk, names).Ok? <==> LoopSucceeds(site, disk, names)
    ensures LoopSucceeds(site, disk, names) ==>
              var ps := Published(ConvertAll(site, disk, names));
              VisitAll(site, disk, names) == Ok(LoopState(Rendered(site, ps), ps))
    decreases |names|
  {
    if names != [] {
      var init := names[..|names| - 1];
      VisitAllSpec(site, disk, init);
      VisitStep(site, disk, init, names[|names| - 1]);
      assert init + [names[|names| - 1]] == names;
    }
  }

  /**
   * A run succeeds exactly when the output directory can be created, the
   * posts directory listed, the loop completes and the home page can be
   * rendered and written. The output directory then holds the pages of
   * the published posts and `index.html`, written last, so that it wins
   * over a post whose page name is `index.html`.
   */
  lemma BuildOutcome(site: Site, disk: Disk)
    ensures Build(site, disk).Ok? <==>
              disk.distCreatable && disk.listing.Some? && LoopSucceeds(site, disk, disk.listing.value)
              && HomePage(site, Published(ConvertAll(site, disk, disk.listing.value))).Ok?
              && Writable(disk, HomeName)
    ensures Build(site, disk).Ok? ==>
              var ps := Published(ConvertAll(site, disk, disk.listing.value));
              && Build(site, disk).value == Rendered(site, ps)[HomeName := HomePage(site, ps).value]
              && Build(site, disk).value.Keys == Pages(ps) + {HomeName}
              && Build(site, disk).value[HomeName] == HomePage(site, ps).value
  {
    if disk.distCreatable && disk.listing.Some? {
      var names := disk.listing.value;
      VisitAllSpec(site, disk, names);
      if LoopSucceeds(site, disk, names) {
        HomeStep(site, disk, Published(ConvertAll(site, disk, names)));
      }
    }
  }

  /** renderHome after a successful loop. */
  lemma HomeStep(site: Site, disk: Disk, ps: seq<Converted>)
    requires AllRenderable(site, ps)
    ensures var r := RenderHome(site, disk, Rendered(site, ps), ps);
            && (r.Ok? <==> HomePage(site, ps).Ok? && Writable(disk, HomeName))
            && (r.Ok? ==> r.value == Rendered(site, ps)[HomeName := HomePage(site, ps).value]
                          && r.value.Keys == Pages(ps) + {HomeName}
                          && r.value[HomeName] == HomePage(site, ps).value)
  {
    RenderedKeys(site, ps);
  }

  /** The page of a post is the rendering of the last post with that page name. */
  lemma {:induction false} RenderedLastWins(site: Site, ps: seq<Converted>, i: nat)
    requires AllRenderable(site, ps) && i < |ps|
    requires forall j :: i < j < |ps| ==> ps[j].meta["page"] != ps[i].meta["page"]
    ensures ps[i].meta["page"] in Rendered(site, ps)
    ensures Rendered(site, ps)[ps[i].meta["page"]] == PostPage(site, ps[i]).value
    decreases |ps|
  {
    RenderedInit(site, ps);
    if i < |ps| - 1 {
      var init := ps[..|ps| - 1];
      assert init[i] == ps[i];
      assert forall j :: i < j < |init| ==> init[j] == ps[j];
      RenderedLastWins(site, init, i);
    }
  }

  lemma RenderedInit(site: Site, ps: seq<Converted>)
    requires AllRenderable(site, ps) && ps != []
    ensures var init, last := ps[..|ps| - 1], ps[|ps| - 1];
            AllRenderable(site, init)
            && Rendered(site, ps) == Rendered(site, init)[last.meta["page"] := PostPage(site, last).value]
  {
    var init := ps[..|ps| - 1];
    assert forall j :: 0 <= j < |init| ==> init[j] == ps[j];
  }

  /** An entry that is read but not published is skipped: the loop goes on as if it were not listed. */
  lemma UnpublishedSkipped(site: Site, disk: Disk, names: seq<string>, name: string)
    requires Readable(site, disk, name)
    requires !IsPublished(site.convert(disk.files[JoinPath(site.postsPath, name)]))
    ensures VisitAll(site, disk, names + [name]) == VisitAll(site, disk, names)
  {
    VisitAllSnoc(site, disk, names, name);
  }

  /** Once the loop has failed, the later entries change nothing: the run ends with that error. */
  lemma {:induction false} VisitAllErrorPersists(site: Site, disk: Disk, names: seq<string>, k: nat)
    requires k <= |names| && VisitAll(site, disk, names[..k]).Err?
    ensures VisitAll(site, disk, names) == VisitAll(site, disk, names[..k])
    decreases |names|
  {
    if k == |names| {
      assert names[..k] == names;
    } else {
      var init := names[..|names| - 1];
      assert init[..k] == names[..k];
      VisitAllErrorPersists(site, disk, init, k);
    }
  }

  /**
   * If the loop reaches an entry that cannot be read, the run fails with
   * the error that names the entry's joined path.
   */
  lemma UnreadableEntryFails(site: Site, disk: Disk, k: nat)
    requires disk.distCreatable && disk.listing.Some? && k < |disk.listing.value|
    requires LoopSucceeds(site, disk, disk.listing.value[..k])
    requires !Readable(site, disk, disk.listing.value[k])
    ensures Build(site, disk) == Err(FileNotFound(JoinPath(site.postsPath, disk.listing.value[k])))
    ensures Contains(Build(site, disk).error.message, JoinPath(site.postsPath, disk.listing.value[k]))
  {
    var names := disk.listing.value;
    VisitAllSpec(site, disk, names[..k]);
    UnreadableStops(site, disk, names, k);
    FileMessageNamesPath(JoinPath(site.postsPath, names[k]));
  }

  lemma UnreadableStops(site: Site, disk: Disk, names: seq<string>, k: nat)
    requires k < |names| && VisitAll(site, disk, names[..k]).Ok? && !Readable(site, disk, names[k])
    ensures VisitAll(site, disk, names) == Err(FileNotFound(JoinPath(site.postsPath, names[k])))
  {
    assert names[..k + 1] == names[..k] + [names[k]];
    VisitAllSnoc(site, disk, names[..k], names[k]);
    VisitAllErrorPersists(site, disk, names, k + 1);
  }

  /** If the posts directory cannot be listed, the run fails with the error that names it. */
  lemma UnlistableDirectoryFails(site: Site, disk: Disk)
    requires disk.distCreatable && disk.listing.None?
    ensures Build(site, disk) == Err(DirectoryNotFound(site.postsPath))
    ensures Contains(Build(site, disk).error.message, site.postsPath)
  {
    DirectoryMessageNamesPath(site.postsPath);
  }

  /** One entry more: the step of VisitAllSpec. */
  lemma VisitStep(site: Site, disk: Disk, init: seq<string>, name: string)
    requires VisitAll(site, disk, init).Ok? <==> LoopSucceeds(site, disk, init)
    requires LoopSucceeds(site, disk, init) ==>
               var ps := Published(ConvertAll(site, disk, init));
               VisitAll(site, disk, init) == Ok(LoopState(Rendered(site, ps), ps))
    ensures var names := init + [name];
            (VisitAll(site, disk, names).Ok? <==> LoopSucceeds(site, disk, names))
            && (LoopSucceeds(site, disk, names) ==>
                  var ps := Published(ConvertAll(site, disk, names));
                  VisitAll(site, disk, names) == Ok(LoopState(Rendered(site, ps), ps)))
  {
    var names := init + [name];
    VisitAllSnoc(site, disk, init, name);
    ReadableSnoc(site, disk, init, name);
    if AllReadable(site, disk, names) {
      var p := site.convert(disk.files[JoinPath(site.postsPath, name)]);
      ConvertSnoc(site, disk, init, name);
      var before := Published(ConvertAll(site, disk, init));
      PublishedSnoc(ConvertAll(site, disk, init), p);
      if IsPublished(p) {
        WritableAppend(site, disk, before, [p]);
        if AllWritable(site, disk, before) {
          VisitPublished(site, disk, before, p);
        }
      } else {
        assert before + [] == before;
      }
    }
  }

  /** The loop over one entry more is one more visit. */
  lemma VisitAllSnoc(site: Site, disk: Disk, init: seq<string>, name: string)
    ensures var r := VisitAll(site, disk, init);
            VisitAll(site, disk, init + [name]) == if r.Err? then r else Visit(site, disk, r.value, name)
  {
    var names := init + [name];
    assert names[..|names| - 1] == init;
  }

  lemma ConvertSnoc(site: Site, disk: Disk, init: seq<string>, name: string)
    requires AllReadable(site, disk, init + [name])
    ensures AllReadable(site, disk, init) && Readable(site, disk, name)
    ensures ConvertAll(site, disk, init + [name])
            == ConvertAll(site, disk, init) + [site.convert(disk.files[JoinPath(site.postsPath, name)])]
  {
    var names := init + [name];
    ReadableSnoc(site, disk, init, name);
    assert names[..|names| - 1] == init;
  }

  /** Rendering one more published post into the pages of the posts before it. */
  lemma VisitPublished(site: Site, disk: Disk, before: seq<Converted>, p: Converted)
    requires AllWritable(site, disk, before)
    ensures var r := RenderPost(site, disk, Rendered(site, before), p);
            (r.Ok? <==> AllWritable(site, disk, before + [p]))
            && (r.Ok? ==> AllRenderable(site, before + [p]) && r.value == Rendered(site, before + [p]))
  {
    WritableAppend(site, disk, before, [p]);
    assert [p][0] == p;
    if Renderable(site, p) {
      RenderedSnoc(site, before, p);
    }
  }

  lemma ReadableSnoc(site: Site, disk: Disk, init: seq<string>, name: string)
    ensures AllReadable(site, disk, init + [name]) <==> AllReadable(site, disk, init) && Readable(site, disk, name)
  {
    var names := init + [name];
    assert forall i :: 0 <= i < |init| ==> names[i] == init[i];
    assert names[|init|] == name;
  }

  lemma PublishedSnoc(ps: seq<Converted>, p: Converted)
    ensures Published(ps + [p]) == Published(ps) + if IsPublished(p) then [p] else []
  {
    PublishedAppend(ps, [p]);
    assert [p][1..] == [];
  }

  lemma WritableAppend(site: Site, disk: Disk, a: seq<Converted>, b: seq<Converted>)
    ensures AllWritable(site, disk, a + b) <==> AllWritable(site, disk, a) && AllWritable(site, disk, b)
  {
    var ab := a + b;
    assert forall i :: 0 <= i < |a| ==> ab[i] == a[i];
    assert forall i :: 0 <= i < |b| ==> ab[|a| + i] == b[i];
  }

  lemma RenderedSnoc(site: Site, ps: seq<Converted>, p: Converted)
    requires AllRenderable(site, ps) && Renderable(site, p)
    ensures AllRenderable(site, ps + [p])
    ensures Rendered(site, ps + [p]) == Rendered(site, ps)[p.meta["page"] := PostPage(site, p).value]
  {
    var qs := ps + [p];
    assert forall i :: 0 <= i < |ps| ==> qs[i] == ps[i];
    assert qs[..|qs| - 1] == ps;
  }
}
