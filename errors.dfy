/**
 * The errors the build raises: the two the script constructs itself when a
 * read fails, and those that the file system, `path.join` or the minifier
 * throw and the script lets through.
 */
module Errors {
  import opened Strings

  datatype Error =
    | Raised(message: string)      // `new Error(message)` thrown by the script
    | InvalidPathArgument          // `path.join` given `undefined` (a post without `page`)
    | MkdirFailed(path: string)    // `fs.mkdirSync` could not create the output directory
    | WriteFailed(path: string)    // `fs.writeFileSync` could not write the file
    | MinifyFailed(reason: string) // html-minifier rejected its input

  /** `path.join` of a directory and a file name, without normalisation. */
  function JoinPath(dir: string, name: string): string
  {
    dir + "/" + name
  }

  /** The error raised when the posts directory cannot be listed. */
  function DirectoryNotFound(path: string): Error
  {
    Raised("Directory \"" + path + "\" not found")
  }

  /** The error raised when a post file cannot be read. */
  function FileNotFound(path: string): Error
  {
    Raised("File \"" + path + "\" not found")
  }

  /** The listing error names the directory that could not be listed. */
  lemma DirectoryMessageNamesPath(path: string)
    ensures DirectoryNotFound(path).Raised?
    ensures Contains(DirectoryNotFound(path).message, path)
  {
    var msg := DirectoryNotFound(path).message;
    assert msg[11..11 + |path|] == path;
    SliceContained(msg, path, 11);
  }

  /** The read error names the joined path of the file that could not be read. */
  lemma FileMessageNamesPath(path: string)
    ensures FileNotFound(path).Raised?
    ensures Contains(FileNotFound(path).message, path)
  {
    var msg := FileNotFound(path).message;
    assert msg[6..6 + |path|] == path;
    SliceContained(msg, path, 6);
  }
}
