/** What a node's services take from their host: the System.IO.Path
    primitives, a read-only view of the file system, and the text decoding done
    by StreamReader and File.ReadAllText. All of it is given, not modelled. */
module Host {
  import opened Common
  import opened Seqs
  import opened Encodings

  /** The path primitives of the running platform. */
  datatype Platform = Platform(
    separator: char,                        // Path.DirectorySeparatorChar
    invalidPathChars: set<char>,            // Path.GetInvalidPathChars()
    combine: (string, string) -> string,    // Path.Combine(first, second)
    fullPath: string -> string,             // Path.GetFullPath(path)
    relativeTo: (string, string) -> string, // Path.GetRelativePath(relativeTo, path)
    fileName: string -> string,             // Path.GetFileName / DirectoryInfo.Name
    extension: string -> string)            // Path.GetExtension

  /** An entry of the file system. A directory knows its immediate children
      in enumeration order and every file below it (what
      `Directory.GetFiles(path, "*.*", SearchOption.AllDirectories)` returns). */
  datatype Node =
    | Directory(lastModified: int, children: seq<string>, descendantFiles: seq<string>)
    | File(lastModified: int, bytes: seq<bv8>)

  /** The file system, keyed by the path strings the services query. */
  datatype FileSystem = FileSystem(nodes: map<string, Node>)

  predicate DirectoryExists(fs: FileSystem, path: string) {
    path in fs.nodes && fs.nodes[path].Directory?
  }

  predicate FileExists(fs: FileSystem, path: string) {
    path in fs.nodes && fs.nodes[path].File?
  }

  /** `Directory.GetDirectories(path)`. */
  function Subdirectories(fs: FileSystem, path: string): seq<string>
    requires DirectoryExists(fs, path)
  {
    Filter(fs.nodes[path].children, (c: string) => DirectoryExists(fs, c))
  }

  /** `Directory.GetFiles(path)`. */
  function Files(fs: FileSystem, path: string): seq<string>
    requires DirectoryExists(fs, path)
  {
    Filter(fs.nodes[path].children, (c: string) => FileExists(fs, c))
  }

  /** `LastWriteTime` of a file or directory. */
  function LastWriteTime(fs: FileSystem, path: string): int {
    if path in fs.nodes then fs.nodes[path].lastModified else 0
  }

  /** `FileInfo.Length` of an existing file. */
  function Length(fs: FileSystem, path: string): int {
    if FileExists(fs, path) then |fs.nodes[path].bytes| else 0
  }

  /** The size of the `char[]` buffer the search reads into. */
  const BufferSize: nat := 4096

  /** What one `StreamReader.ReadAsync(buffer, 0, 4096)` hands out. */
  type Chunk = s: string | |s| <= BufferSize

  datatype ReadOutcome = Decoded(text: string) | ReadFailed(message: string)

  /** Text decoding, as given functions of a file's bytes. */
  datatype TextDecoder = TextDecoder(
    // StreamReader(path, Encoding.Default, true) switched away from the default
    // encoding after reading a 4096-character sample
    sniffUnicode: seq<bv8> -> bool,
    // File.ReadAllText(path, encoding), or the message of what it threw
    readAllText: (seq<bv8>, TextEncoding) -> ReadOutcome,
    // the successive ReadAsync results, or None when one of them throws
    readChunks: seq<bv8> -> Option<seq<Chunk>>,
    // Encoding.Default.WebName
    defaultEncodingName: string)
}
