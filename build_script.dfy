/**
 * The build script's functions as methods on the file system: rmDist,
 * mkDist, the two reads, the two writes and `main`, whose forEach loop
 * pushes the published posts and whose catch removes the output directory
 * before re-raising.
 */
module BuildScript {
  import opened Wrappers
  import opened Errors
  import opened Templates
  import opened Posts
  import BuildSpec

  /** The file system: what the build reads, and the output directory, which it rewrites. */
  class FileSystem {
    const disk: BuildSpec.Disk
    /** The output directory: absent, or its files by name. */
    var dist: Option<map<string, string>>

    constructor (disk: BuildSpec.Disk, dist: Option<map<string, string>>)
      ensures this.disk == disk && this.dist == dist
    {
      this.disk := disk;
      this.dist := dist;
    }

    /** rmDist: `force: true` makes it succeed whether or not the directory exists. */
    method RmDist()
      modifies this
      ensures dist == None
    {
      dist := None;
    }

    /** mkDist: `fs.mkdirSync` fails when the directory exists or cannot be created. */
    method MkDist(site: BuildSpec.Site) returns (r: Outcome<Error>)
      modifies this
      ensures old(dist).None? && disk.distCreatable ==> r == Pass && dist == Some(map[])
      ensures !(old(dist).None? && disk.distCreatable) ==> r == Fail(MkdirFailed(site.distPath)) && dist == old(dist)
    {
      if dist.None? && disk.distCreatable {
        dist := Some(map[]);
        r := Pass;
      } else {
        r := Fail(MkdirFailed(site.distPath));
      }
    }

    /** getPostFileNames: the entries of the posts directory, or the error naming it. */
    method GetPostFileNames(site: BuildSpec.Site) returns (r: Result<seq<string>, Error>)
      ensures r.Ok? <==> disk.listing.Some?
      ensures r.Ok? ==> r.value == disk.listing.value
      ensures r.Err? ==> r.error == DirectoryNotFound(site.postsPath)
    {
      if disk.listing.Some? {
        r := Ok(disk.listing.value);
      } else {
        r := Err(DirectoryNotFound(site.postsPath));
      }
    }

    /** getPostFileMDContent: the file's text, or the error naming its joined path. */
    method GetPostFileMDContent(site: BuildSpec.Site, name: string) returns (r: Result<string, Error>)
      ensures var path := JoinPath(site.postsPath, name);
              && (r.Ok? <==> path in disk.files)
              && (r.Ok? ==> r.value == disk.files[path])
              && (r.Err? ==> r.error == FileNotFound(path))
    {
      var path := JoinPath(site.postsPath, name);
      if path in disk.files {
        r := Ok(disk.files[path]);
      } else {
        r := Err(FileNotFound(path));
      }
    }

    /** `fs.writeFileSync` of `name` in the output directory: a second write to a name replaces the first. */
    method WriteFile(site: BuildSpec.Site, name: string, content: string) returns (r: Outcome<Error>)
      requires dist.Some?
      modifies this
      ensures var w := BuildSpec.Write(site, disk, old(dist.value), name, content);
              && r == OutcomeOf(w)
              && dist == if w.Ok? then Some(w.value) else old(dist)
    {
      if BuildSpec.Writable(disk, name) {
        dist := Some(dist.value[name := content]);
        r := Pass;
      } else {
        r := Fail(WriteFailed(JoinPath(site.distPath, name)));
      }
    }

    /** renderPost. */
    method RenderPost(site: BuildSpec.Site, post: Converted) returns (r: Outcome<Error>)
      requires dist.Some?
      modifies this
      ensures var w := BuildSpec.RenderPost(site, disk, old(dist.value), post);
              && r == OutcomeOf(w)
              && dist == if w.Ok? then Some(w.value) else old(dist)
    {
      if "page" !in post.meta {
        return Fail(InvalidPathArgument);
      }
      var html := EnrichTemplate(site.postTemplate, PostFields(post), site.optimize);
      if html.Err? {
        return Fail(html.error);
      }
      r := WriteFile(site, post.meta["page"], html.value);
    }

    /** renderHome. */
    method RenderHome(site: BuildSpec.Site, posts: seq<Converted>) returns (r: Outcome<Error>)
      requires dist.Some?
      modifies this
      ensures var w := BuildSpec.RenderHome(site, disk, old(dist.value), posts);
              && r == OutcomeOf(w)
              && dist == if w.Ok? then Some(w.value) else old(dist)
    {
      var components := GeneratePostComponents(site.postComponent, posts, site.optimize);
      if components.Err? {
        return Fail(components.error);
      }
      var html := EnrichTemplate(site.homeTemplate, [("$posts", Str(components.value))], site.optimize);
      if html.Err? {
        return Fail(html.error);
      }
      r := WriteFile(site, BuildSpec.HomeName, html.value);
    }

    /**
     * The forEach loop of main: every entry in listing order, published
     * posts rendered and pushed; it stops at the first error.
     */
    method VisitEntries(site: BuildSpec.Site, entries: seq<string>) returns (posts: seq<Converted>, r: Outcome<Error>)
      requires dist == Some(map[])
      modifies this
      ensures dist.Some?
      ensures var v := BuildSpec.VisitAll(site, disk, entries);
              && r == OutcomeOf(v)
              && (v.Ok? ==> dist == Some(v.value.out) && posts == v.value.posts)
    {
      posts := [];
      var i := 0;
      while i < |entries|
        invariant i <= |entries| && dist.Some?
        invariant BuildSpec.VisitAll(site, disk, entries[..i]) == Ok(BuildSpec.LoopState(dist.value, posts))
      {
        var name := entries[i];
        assert entries[..i + 1] == entries[..i] + [name];
        BuildSpec.VisitAllSnoc(site, disk, entries[..i], name);
        var md := GetPostFileMDContent(site, name);
        if md.Err? {
          BuildSpec.VisitAllErrorPersists(site, disk, entries, i + 1);
          return posts, Fail(md.error);
        }
        var post := site.convert(md.value);
        if IsPublished(post) {
          var written := RenderPost(site, post);
          if written.Fail? {
            BuildSpec.VisitAllErrorPersists(site, disk, entries, i + 1);
            return posts, written;
          }
          posts := posts + [post];
        }
        i := i + 1;
      }
      assert entries[..i] == entries;
      r := Pass;
    }

    /**
     * main: the run's outcome and the output directory afterwards depend
     * only on what the build reads, not on what the directory held before.
     * On success it holds what BuildSpec.Build computes; on any failure it
     * is absent and the error re-raised is the one that stopped the run.
     */
    method Build(site: BuildSpec.Site) returns (r: Outcome<Error>)
      modifies this
      ensures r == OutcomeOf(BuildSpec.Build(site, disk))
      ensures dist == if r.Pass? then Some(BuildSpec.Build(site, disk).value) else None
    {
      RmDist();
      var made := MkDist(site);
      if made.Fail? {
        RmDist();
        return made;
      }
      var names := GetPostFileNames(site);
      if names.Err? {
        RmDist();
        return Fail(names.error);
      }
      var posts, visited := VisitEntries(site, names.value);
      if visited.Fail? {
        RmDist();
        return visited;
      }
      var home := RenderHome(site, posts);
      if home.Fail? {
        RmDist();
        return home;
      }
      r := Pass;
    }
  }
}
