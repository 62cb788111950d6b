/** What the two node services (the agent and the older API node) share:
    their configuration of named roots, the extension filter, the path
    resolution and checks in front of a listing or a read, the file read
    itself, and the order of a listing. */
module NodeFiles {
  import opened Common
  import opened Text
  import opened Seqs
  import opened Models
  import opened Encodings
  import opened Host
  import opened Paths

  /** The only file types a node lists, reads or searches. */
  const AllowedExtensions: seq<string> := [".log", ".txt"]

  /** `_maxFileSizeInMB`, and the byte limit derived from it. */
  const MaxFileSizeInMB: nat := 10
  const MaxFileSizeBytes: nat := MaxFileSizeInMB * 1024 * 1024

  const TooLargeMessage: string := "File is too large. Maximum size is 10MB."

  /** The `FileSettings:RootPaths` dictionary, as its entries in enumeration
      order. */
  datatype NodeConfig = NodeConfig(roots: seq<RootDirectory>)

  /** A dictionary never holds a key twice. */
  predicate UniqueRootNames(c: NodeConfig) {
    forall i, j :: 0 <= i < j < |c.roots| ==> c.roots[i].name != c.roots[j].name
  }

  /** `_rootPaths.TryGetValue(rootName, out rootPath)`, searching the entries
      from position `from`. */
  function LookupFrom(roots: seq<RootDirectory>, rootName: string, from: nat): (r: Option<string>)
    requires from <= |roots|
    decreases |roots| - from
    ensures r.None? <==> forall k :: from <= k < |roots| ==> roots[k].name != rootName
    ensures r.Some? ==> exists k :: from <= k < |roots| && roots[k].name == rootName && roots[k].path == r.value
  {
    if from == |roots| then None
    else if roots[from].name == rootName then Some(roots[from].path)
    else LookupFrom(roots, rootName, from + 1)
  }

  function Lookup(c: NodeConfig, rootName: string): Option<string> {
    LookupFrom(c.roots, rootName, 0)
  }

  /** `GetRootDirectories`: one entry per configured root. */
  function GetRootDirectories(c: NodeConfig): (r: seq<RootDirectory>)
    ensures |r| == |c.roots|
    ensures forall d :: d in r ==> Lookup(c, d.name).Some?
  {
    c.roots
  }

  /** Every root the node advertises is one it accepts, under the path it
      advertises; every other name is refused. */
  lemma {:induction false} AdvertisedRootsResolve(c: NodeConfig, rootName: string)
    requires UniqueRootNames(c)
    ensures forall i :: 0 <= i < |GetRootDirectories(c)| ==>
      Lookup(c, GetRootDirectories(c)[i].name) == Some(GetRootDirectories(c)[i].path)
    ensures Lookup(c, rootName).None? <==> forall d :: d in GetRootDirectories(c) ==> d.name != rootName
  {
    forall i | 0 <= i < |c.roots|
      ensures Lookup(c, c.roots[i].name) == Some(c.roots[i].path)
    {
      var r := Lookup(c, c.roots[i].name);
      assert r.Some?;
      var k :| 0 <= k < |c.roots| && c.roots[k].name == c.roots[i].name && c.roots[k].path == r.value;
      assert k == i;
    }
  }

  /** `_allowedExtensions.Contains(extension.ToLower())`. */
  predicate IsAllowedExtension(extension: string) {
    ToLower(extension) in AllowedExtensions
  }

  /** The filter ignores case and matches the whole extension. */
  lemma ExtensionFilter()
    ensures IsAllowedExtension(".log") && IsAllowedExtension(".TXT") && IsAllowedExtension(".Log")
    ensures !IsAllowedExtension(".gz") && !IsAllowedExtension(".json") && !IsAllowedExtension("")
    ensures !IsAllowedExtension(".logs") && !IsAllowedExtension("log")
  {
    assert ToLower(".TXT") == ".txt";
    assert ToLower(".Log") == ".log";
    assert ToLower(".log") == ".log";
  }

  /** `files.Where(f => _allowedExtensions.Contains(Path.GetExtension(f).ToLower()))`. */
  function AllowedFiles(p: Platform, files: seq<string>): (r: seq<string>)
    ensures |r| <= |files|
  {
    if files == [] then []
    else
      var last := files[|files| - 1];
      AllowedFiles(p, files[..|files| - 1]) + (if IsAllowedExtension(p.extension(last)) then [last] else [])
  }

  /** The filter keeps exactly the files with an allowed extension. */
  lemma {:induction false} AllowedFilesMembers(p: Platform, files: seq<string>)
    ensures forall f :: f in AllowedFiles(p, files) <==> f in files && IsAllowedExtension(p.extension(f))
  {
    if files != [] {
      var last := files[|files| - 1];
      assert files == files[..|files| - 1] + [last];
      AllowedFilesMembers(p, files[..|files| - 1]);
    }
  }

  /** `Path.Combine(rootPath, NormalizePath(relativePath))`. */
  function TargetPath(rootPath: string, relativePath: Option<string>, p: Platform): string {
    p.combine(rootPath, NormalizePath(relativePath, p))
  }

  /** A root and a directory under it that passed every check. */
  datatype Resolved = Resolved(rootPath: string, fullPath: string)

  /** The checks in front of a listing, in the order the code makes them:
      the root must be configured, the target directory must exist, and its
      canonical path must lie within the root. */
  function ResolveDirectory(c: NodeConfig, fs: FileSystem, p: Platform, rootName: string, relativePath: Option<string>): (r: Outcome<Resolved>)
    ensures Lookup(c, rootName).None? ==> r == Threw(ArgumentError("Invalid root directory: " + rootName))
    ensures Lookup(c, rootName).Some? && !DirectoryExists(fs, TargetPath(Lookup(c, rootName).value, relativePath, p)) ==>
      r == Threw(DirectoryNotFoundError("Directory not found: " + TargetPath(Lookup(c, rootName).value, relativePath, p)))
    ensures r.Returned? ==> Lookup(c, rootName) == Some(r.value.rootPath)
    ensures r.Returned? ==> r.value.fullPath == TargetPath(r.value.rootPath, relativePath, p)
    ensures r.Returned? ==> DirectoryExists(fs, r.value.fullPath) && IsPathWithinRoot(r.value.fullPath, r.value.rootPath, p)
    ensures r.Threw? && Lookup(c, rootName).Some? && DirectoryExists(fs, TargetPath(Lookup(c, rootName).value, relativePath, p)) ==>
      r == Threw(UnauthorizedAccessError("Access to this path is not allowed"))
    ensures (Lookup(c, rootName).Some? && DirectoryExists(fs, TargetPath(Lookup(c, rootName).value, relativePath, p)) &&
             IsPathWithinRoot(TargetPath(Lookup(c, rootName).value, relativePath, p), Lookup(c, rootName).value, p)) ==>
      r == Returned(Resolved(Lookup(c, rootName).value, TargetPath(Lookup(c, rootName).value, relativePath, p)))
  {
    match Lookup(c, rootName)
    case None => Threw(ArgumentError("Invalid root directory: " + rootName))
    case Some(rootPath) =>
      var fullPath := TargetPath(rootPath, relativePath, p);
      if !DirectoryExists(fs, fullPath) then Threw(DirectoryNotFoundError("Directory not found: " + fullPath))
      else if !IsPathWithinRoot(fullPath, rootPath, p) then Threw(UnauthorizedAccessError("Access to this path is not allowed"))
      else Returned(Resolved(rootPath, fullPath))
  }

  /** The read of a file that passed every check: refused above 10 MiB,
      otherwise decoded with the encoding its byte order mark announces. The
      size is reported on every path. */
  function ReadAllowedFile(bytes: seq<bv8>, dec: TextDecoder): (r: FileReadResult)
    ensures r.fileSizeBytes == |bytes|
    ensures r.success <==> r.contents.Some? && r.encoding.Some? && r.errorMessage.None?
    ensures !r.success ==> r.contents.None? && r.encoding.None? && r.errorMessage.Some?
    ensures |bytes| > MaxFileSizeBytes ==> r.errorMessage == Some(TooLargeMessage)
    ensures r.success <==> (|bytes| <= MaxFileSizeBytes &&
      dec.readAllText(bytes, DetectFileEncoding(bytes, dec.sniffUnicode(bytes))).Decoded?)
    ensures r.success ==> var e := DetectFileEncoding(bytes, dec.sniffUnicode(bytes));
      r.contents == Some(dec.readAllText(bytes, e).text) && r.encoding == Some(WebName(e, dec.defaultEncodingName))
  {
    var size := |bytes|;
    if size > MaxFileSizeBytes then
      FileReadResult(false, None, Some(TooLargeMessage), None, size)
    else
      var encoding := DetectFileEncoding(bytes, dec.sniffUnicode(bytes));
      match dec.readAllText(bytes, encoding)
      case Decoded(contents) => FileReadResult(true, Some(contents), None, Some(WebName(encoding, dec.defaultEncodingName)), size)
      case ReadFailed(message) => FileReadResult(false, None, Some("Error reading file: " + message), None, size)
  }

  /** `ReadFileContents`, identical on both kinds of node: the root must be
      configured, the target must be an existing file, its canonical path
      must lie within the root and its extension must be allowed; only then
      is it read. */
  function ReadFileContents(c: NodeConfig, fs: FileSystem, p: Platform, dec: TextDecoder, rootName: string, relativePath: Option<string>): (r: Outcome<FileReadResult>)
    ensures Lookup(c, rootName).None? ==> r == Threw(ArgumentError("Invalid root directory: " + rootName))
    ensures Lookup(c, rootName).Some? && !FileExists(fs, TargetPath(Lookup(c, rootName).value, relativePath, p)) ==>
      r == Threw(FileNotFoundError("File not found: " + TargetPath(Lookup(c, rootName).value, relativePath, p)))
    ensures r.Returned? <==> (Lookup(c, rootName).Some? &&
      var fullPath := TargetPath(Lookup(c, rootName).value, relativePath, p);
      FileExists(fs, fullPath) && IsPathWithinRoot(fullPath, Lookup(c, rootName).value, p) &&
      IsAllowedExtension(p.extension(fullPath)))
    ensures (Lookup(c, rootName).Some? && FileExists(fs, TargetPath(Lookup(c, rootName).value, relativePath, p)) &&
             !IsPathWithinRoot(TargetPath(Lookup(c, rootName).value, relativePath, p), Lookup(c, rootName).value, p)) ==>
      r == Threw(UnauthorizedAccessError("Access to this file is not allowed"))
    ensures (Lookup(c, rootName).Some? && FileExists(fs, TargetPath(Lookup(c, rootName).value, relativePath, p)) &&
             IsPathWithinRoot(TargetPath(Lookup(c, rootName).value, relativePath, p), Lookup(c, rootName).value, p) &&
             !IsAllowedExtension(p.extension(TargetPath(Lookup(c, rootName).value, relativePath, p)))) ==>
      r == Threw(UnauthorizedAccessError("File type not allowed: " + ToLower(p.extension(TargetPath(Lookup(c, rootName).value, relativePath, p)))))
    ensures r.Returned? ==>
      r.value == ReadAllowedFile(fs.nodes[TargetPath(Lookup(c, rootName).value, relativePath, p)].bytes, dec)
  {
    match Lookup(c, rootName)
    case None => Threw(ArgumentError("Invalid root directory: " + rootName))
    case Some(rootPath) =>
      var fullPath := TargetPath(rootPath, relativePath, p);
      if !FileExists(fs, fullPath) then Threw(FileNotFoundError("File not found: " + fullPath))
      else if !IsPathWithinRoot(fullPath, rootPath, p) then Threw(UnauthorizedAccessError("Access to this file is not allowed"))
      else
        var extension := ToLower(p.extension(fullPath));
        if extension !in AllowedExtensions then Threw(UnauthorizedAccessError("File type not allowed: " + extension))
        else Returned(ReadAllowedFile(fs.nodes[fullPath].bytes, dec))
  }

  /** Existence is checked before containment, so for a path outside the root
      the error tells whether it exists. */
  lemma ErrorsRevealExistence(c: NodeConfig, fs: FileSystem, p: Platform, dec: TextDecoder, rootName: string, relativePath: Option<string>)
    requires Lookup(c, rootName).Some?
    requires !IsPathWithinRoot(TargetPath(Lookup(c, rootName).value, relativePath, p), Lookup(c, rootName).value, p)
    ensures var fullPath := TargetPath(Lookup(c, rootName).value, relativePath, p);
      ReadFileContents(c, fs, p, dec, rootName, relativePath) ==
      if FileExists(fs, fullPath) then Threw(UnauthorizedAccessError("Access to this file is not allowed"))
      else Threw(FileNotFoundError("File not found: " + fullPath))
  {
  }

  /** The sort key of `OrderBy(i => !i.IsDirectory).ThenBy(i => i.Name)`:
      directories (false) before files (true), then by name. */
  function ListingKey(item: FileItem): string {
    [if item.isDirectory then '0' else '1'] + item.name
  }

  /** Directories come first, and each kind is in name order. */
  predicate DirectoriesFirstByName(items: seq<FileItem>) {
    forall i, j :: 0 <= i < j < |items| ==>
      (items[j].isDirectory ==> items[i].isDirectory) &&
      (items[i].isDirectory == items[j].isDirectory ==> StrLe(items[i].name, items[j].name))
  }

  /** Sorting by the listing key is exactly "directories first, then by
      name". */
  lemma ListingOrder(items: seq<FileItem>)
    ensures SortedBy(items, ListingKey) <==> DirectoriesFirstByName(items)
  {
    forall a: FileItem, b: FileItem
      ensures StrLe(ListingKey(a), ListingKey(b)) <==>
        (b.isDirectory ==> a.isDirectory) && (a.isDirectory == b.isDirectory ==> StrLe(a.name, b.name))
    {
      assert ListingKey(a)[1..] == a.name && ListingKey(b)[1..] == b.name;
    }
  }
}
