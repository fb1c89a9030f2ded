# Blog build script, modelled in Dafny

The repository is a static-site generator made of one Node script,
`scripts/build.js`. Each time it runs, it does the following:

- It removes and recreates the output directory (`dist`).
- It lists the posts directory and reads each entry.
- It converts each entry from Markdown to HTML with front-matter metadata.
- For every post whose `published_at` is set, it fills the post template with
  the post's fields and writes the page under the post's `page` name.
- It fills one post component per published post, joins the components, and
  writes the home page `index.html`.
- If any step fails, it removes `dist` and re-raises the error.

Templates are filled by `enrichTemplate`. For each field of a data object, in
the order the fields are written, it applies `String.prototype.replaceAll`.
Each replacement works on the result of the one before. The result then goes
through html-minifier.

The model has these modules:

- `Wrappers` defines `Option`, `Result` and `Outcome` (success, or the error a
  function throws).
- `Strings` follows ECMA-262 for the parts the script uses: StringIndexOf
  (section 6.1.4.1) and GetSubstitution (section 22.1.3.19.1, with no
  captures). It uses them to define `String.prototype.replaceAll`
  (section 22.1.3.20).
- `ReplaceFacts` defines a literal, left-to-right reference substitution. It
  proves that replaceAll agrees with it whenever the value has no
  `$`-patterns, and shows by example where the two differ.
- `Errors` holds the errors the run can end with, and the two messages the
  script builds itself.
- `Templates` is `enrichTemplate`. It is a function, `Substitute` followed by
  the optimiser, and also the loop `EnrichTemplate`, which is proved equal to
  that function.
- `Posts` covers converted posts, the published filter, the two field lists,
  and `generatePostComponents` (`map`, then `join("")`).
- `BuildSpec` describes what one run computes, as functions of the
  configuration (`Site`) and of what the file system offers (`Disk`). It holds
  the lemmas about the loop, the output keys, overwriting, and the errors.
- `BuildScript` is a class, `FileSystem`. Its field `dist` is the output
  directory: absent, or a map from file name to content. Its methods are
  rmDist, mkDist, the two reads, the two renders, the forEach loop and `main`.
  Each method is proved against the matching `BuildSpec` function.

The Markdown converter and the minifier are parameters of `Site`:

- `convert` is a total function from text to `(html, meta)`.
- `optimize` is a function from text to a `Result`, because html-minifier can
  throw.

The file system is a parameter of `FileSystem`, a `Disk` value with four parts:

- the listing of the posts directory, or none when it cannot be listed;
- the readable files, by path;
- whether the output directory can be created;
- the set of names in the output directory that cannot be written.

## Where the code differs from a plain reading of the script

- `replaceAll` with a string value is not a literal substitution. ECMA-262
  expands `$$`, `$&`, `` $` `` and `$'` in the replacement value, so a title
  such as `a$$b` is written as `a$b`. The model follows the language
  definition. `ReplaceFacts.DollarPairCollapses` gives an example where the
  two differ. `ReplaceFacts.ReplaceAllIsLiteral` shows they agree when the
  value has no patterns.
- The loop visits every entry of the posts directory. Nothing filters file
  names by a `.md` suffix (scripts/build.js:24). An entry that cannot be read
  as a file stops the run with the "File … not found" error.
- Suppose no value contains a placeholder token. The rendered output can still
  contain one, because a value can complete a token together with the text
  just before the match. `ReplaceFacts.ReplacementCanRecreateToken` shows this:
  substituting `b` for `$ab` in `$a$ab` gives `$ab`.
- A post without `page` fails in `path.join(DIST_PATH, undefined)`. That is a
  TypeError, raised before the template is filled, and it ends the run like
  any other error. A field that is absent from the metadata becomes the text
  `undefined` in the page.

## Model

| member | source | states |
|---|---|---|
| `Strings.IndexOf` | scripts/build.js:109 | when the search finds an index, it is at or after the start position and the token occurs there |
| `Strings.IndexOfIsLeast` | scripts/build.js:109 | every occurrence at or after the start is found, so the search stops at the first occurrence |
| `Strings.GetSubstitutionLiteral` | scripts/build.js:109 | GetSubstitution copies a replacement value without `$`-patterns verbatim |
| `Strings.ReplaceAll` | scripts/build.js:109 | replaceAll returns the string unchanged when the token does not occur, and keeps the text before the first occurrence |
| `Strings.NoDollarNoPatterns` | scripts/build.js:109 | a value without `$` has no replacement patterns |
| `ReplaceFacts.ReplaceAllIsLiteral` | scripts/build.js:109 | for a value without `$`-patterns, replaceAll is the literal, left-to-right, non-overlapping substitution of every occurrence |
| `ReplaceFacts.FirstOccurrenceReplaced` | scripts/build.js:109 | replaceAll changes the string only at occurrences: the text before the first one, then the value, then the literal substitution of the rest |
| `ReplaceFacts.ReplaceWhole` | scripts/build.js:109 | a string that is exactly the token becomes the value |
| `ReplaceFacts.ReplaceBySelf` | scripts/build.js:109 | replacing a pattern-free token by itself leaves every string unchanged |
| `ReplaceFacts.DollarPairCollapses` | scripts/build.js:109 | `$$` in a value becomes `$`, where literal substitution would keep `$$` |
| `ReplaceFacts.ReplacementCanRecreateToken` | scripts/build.js:106-112 | a value that contains no token can still leave the token in the result |
| `Errors.DirectoryMessageNamesPath` | scripts/build.js:48-54 | the listing error's message contains the posts directory path |
| `Errors.FileMessageNamesPath` | scripts/build.js:56-63 | the read error's message contains the joined path of the file |
| `Templates.Substitute` | scripts/build.js:106-110 | when none of the tokens occurs in the template, substitution returns it unchanged |
| `Templates.EnrichTemplate` | scripts/build.js:106-112 | the loop over the fields, each replaceAll working on the previous result, then the optimiser, returns what `Enrich` specifies |
| `Templates.SubstituteAppend` | scripts/build.js:108-110 | substituting the fields `a + b` is substituting `a`, then `b` in that result |
| `Templates.SubstituteFirst` | scripts/build.js:108-110 | the first field is replaced in the template itself and the remaining fields in that result |
| `Templates.EnrichCumulative` | scripts/build.js:106-112 | with no fields, enrichTemplate optimises the template; with fields, it equals enrichTemplate of the first replacement with the remaining fields |
| `Templates.SubstituteOne` | scripts/build.js:109 | one field is one replaceAll of its token by its value's text |
| `Templates.OrderMatters` | scripts/build.js:108-110 | the same two fields in the other order give a different page |
| `Templates.UndefinedIsLiteral` | scripts/build.js:109 | the text of `undefined` has no replacement patterns |
| `Templates.UndefinedFieldWritten` | scripts/build.js:106-112 | a field whose value is `undefined` is not skipped: its first occurrence becomes `undefined`, the rest is substituted literally, and the result contains `undefined` |
| `Posts.PostFields` | scripts/build.js:74-80 | renderPost's five tokens, in source order, all non-empty |
| `Posts.ComponentFields` | scripts/build.js:96-101 | generatePostComponents' four tokens, in source order, all non-empty |
| `Posts.Published` | scripts/build.js:27-30 | the published posts are no more than the posts |
| `Posts.PublishedMembers` | scripts/build.js:27-30 | a post is kept exactly when it is listed and its `published_at` is present and non-empty |
| `Posts.PublishedAppend` | scripts/build.js:23-31 | the filter keeps listing order: the published posts of `a + b` are those of `a`, then those of `b` |
| `Posts.Fragments` | scripts/build.js:94-102 | on success there is one fragment per post, each the post's own rendering, in order; on failure the error is the one from the first post that fails |
| `Posts.JoinAppend` | scripts/build.js:103 | `join("")` of `a + b` is the join of `a` followed by the join of `b` |
| `Posts.FragmentsAppend` | scripts/build.js:94-102 | the renderings of `a + b` are those of `a`, then those of `b`, unless one of them fails first |
| `Posts.MapJoin` | scripts/build.js:93-104 | map, then join, is `""` for no posts, and succeeds exactly when every post renders |
| `Posts.MapJoinOne` | scripts/build.js:93-104 | map-and-join of one post is that post's rendering |
| `Posts.MapJoinAppend` | scripts/build.js:93-104 | map-and-join of `a + b` is that of `a` followed by that of `b`, or the first error |
| `Posts.GeneratePostComponents` | scripts/build.js:93-104 | the components are `""` for no posts, and exist exactly when every post's fragment can be rendered |
| `Posts.ComponentsOfOne` | scripts/build.js:93-104 | the components of one post are that post's fragment |
| `Posts.ComponentsAppend` | scripts/build.js:93-104 | the components of `a + b` are those of `a`, then those of `b`, with no separator; otherwise the first failure |
| `BuildSpec.ConvertAll` | scripts/build.js:24-26 | one converted post per listed entry |
| `BuildSpec.RenderedKeys` | scripts/build.js:70-82 | the pages written are exactly the page names of the posts rendered |
| `BuildSpec.VisitAllSpec` | scripts/build.js:23-31 | the loop succeeds exactly when every entry is readable and every published post can be rendered and written; `posts` is then the published posts in listing order, and the output holds their pages |
| `BuildSpec.VisitAllSnoc` | scripts/build.js:24-31 | the loop over one entry more is one more visit after the loop over the earlier entries |
| `BuildSpec.UnpublishedSkipped` | scripts/build.js:27-31 | an entry that is read but not published changes neither the output nor `posts`, and raises no error |
| `BuildSpec.VisitAllErrorPersists` | scripts/build.js:24-31 | after the first error, the later entries change nothing |
| `BuildSpec.RenderedLastWins` | scripts/build.js:71-72 | a page holds the rendering of the last post with that page name: a later write overwrites an earlier one |
| `BuildSpec.HomeStep` | scripts/build.js:84-91 | renderHome succeeds exactly when the home page renders; it adds `index.html`, written last, to the post pages |
| `BuildSpec.BuildOutcome` | scripts/build.js:18-37 | a run succeeds exactly when mkdir, the listing, the loop and the home page all succeed; the output is then the post pages plus `index.html`, and its keys are the published page names plus `index.html` |
| `BuildSpec.UnreadableEntryFails` | scripts/build.js:56-63 | a run that reaches an unreadable entry fails with the error naming that entry's joined path |
| `BuildSpec.UnreadableStops` | scripts/build.js:24-25 | the loop ends with the read error of the first unreadable entry it reaches |
| `BuildSpec.UnlistableDirectoryFails` | scripts/build.js:48-54 | a run whose posts directory cannot be listed fails with the error naming `POSTS_PATH` |
| `BuildScript.FileSystem.RmDist` | scripts/build.js:44-46 | the output directory is absent afterwards, whether or not it existed |
| `BuildScript.FileSystem.MkDist` | scripts/build.js:40-42 | it creates an empty output directory, or fails without change when the directory exists or cannot be created |
| `BuildScript.FileSystem.GetPostFileNames` | scripts/build.js:48-54 | it returns the entries, or the error that names the posts directory exactly when the listing fails |
| `BuildScript.FileSystem.GetPostFileMDContent` | scripts/build.js:56-63 | it returns the file's text, or the error that names the joined path exactly when the read fails |
| `BuildScript.FileSystem.WriteFile` | scripts/build.js:72-81 | it sets the name to the content, overwriting an earlier write, or fails and leaves the directory unchanged |
| `BuildScript.FileSystem.RenderPost` | scripts/build.js:70-82 | it changes the directory and the outcome as `BuildSpec.RenderPost` specifies |
| `BuildScript.FileSystem.RenderHome` | scripts/build.js:84-91 | it changes the directory and the outcome as `BuildSpec.RenderHome` specifies |
| `BuildScript.FileSystem.VisitEntries` | scripts/build.js:23-31 | the forEach loop ends with the outcome of `BuildSpec.VisitAll`; on success it leaves the pages and the `posts` array that function computes |
| `BuildScript.FileSystem.Build` | scripts/build.js:18-37 | main's outcome is that of `BuildSpec.Build`; on success `dist` holds its result; on any failure `dist` is absent and the same error is re-raised; the previous contents of `dist` make no difference |

## Left out

- The empty search string: `Strings.ReplaceAll` requires a non-empty token. ECMA-262 handles an empty token separately, but every token the script passes is a non-empty constant.
- Real file-system calls are not modelled. Listing, reading, creating and writing are replaced by the `Disk` value (what can be listed, read, created and written) and by the `dist` field.
- Node's own error messages are not modelled. The errors from `fs.mkdirSync`, `fs.writeFileSync` and `path.join` are kept only as a kind and a path.
- BuildScript.FileSystem.RmDist: always succeeds. Apart from a missing directory, which `force: true` ignores, `fs.rmSync` could fail (a permission error, for example), and that case is not modelled.
- `path.join` is modelled as concatenation with `/`. Normalisation of `.`, `..` and repeated separators is not modelled. A page name that resolves to a missing subdirectory is just one of the unwritable names. An empty page name resolves to the output directory, so writing it always fails.
- The Markdown converter (showdown) is the abstract total function `Site.convert`. Its parsing and its `getMetadata()` side channel are not modelled. Each conversion's metadata is read straight after that conversion, so the model treats it as part of the result.
- html-minifier is the abstract function `Site.optimize`, which may fail. Its transformations are not modelled.
- `DIST_PATH`, `POSTS_PATH` and `TEMPLATES_PATH` come from environment variables, and the three templates are read at start-up (scripts/build.js:8-16). Both happen before `main`, outside its try block. In the model the paths and templates are constants in `Site`, and a failed template read is not modelled.
- The top-level call `main()` (scripts/build.js:38) is not modelled. The uncaught exception it lets escape is the `Fail` outcome of `Build`.
- JavaScript strings are sequences of UTF-16 code units. The model uses Dafny strings and makes no claim about surrogate pairs.
- `for…in` visits integer-like keys first. Every key here starts with `$`, so keys are visited in the order written, and the model uses that order.
