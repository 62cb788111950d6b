/** The agent node's `FileService`: directory listing with metadata and the
    recursive content search. Reading a file and the path helpers are shared
    with the API node (`NodeFiles`, `Paths`, `Encodings`). */
module AgentFileService {
  import opened Common
  import opened Text
  import opened Seqs
  import opened Models
  import opened Host
  import opened Paths
  import opened NodeFiles
  import opened LineScan

  /** The listing entry of a subdirectory: size 0, its own timestamp. */
  function DirectoryItem(fs: FileSystem, p: Platform, rootName: string, rootPath: string, dir: string): FileItem {
    FileItem(p.fileName(dir), ConvertToWebPath(p.relativeTo(rootPath, dir), p), true, rootName, LastWriteTime(fs, dir), 0)
  }

  /** The listing entry of a file: its length and timestamp. */
  function FileItemFor(fs: FileSystem, p: Platform, rootName: string, rootPath: string, file: string): FileItem {
    FileItem(p.fileName(file), ConvertToWebPath(p.relativeTo(rootPath, file), p), false, rootName, LastWriteTime(fs, file), Length(fs, file))
  }

  function DirectoryItems(fs: FileSystem, p: Platform, rootName: string, rootPath: string, dirs: seq<string>): seq<FileItem> {
    seq(|dirs|, i requires 0 <= i < |dirs| => DirectoryItem(fs, p, rootName, rootPath, dirs[i]))
  }

  function FileItems(fs: FileSystem, p: Platform, rootName: string, rootPath: string, files: seq<string>): seq<FileItem> {
    seq(|files|, i requires 0 <= i < |files| => FileItemFor(fs, p, rootName, rootPath, files[i]))
  }

  lemma DirectoryItemsSnoc(fs: FileSystem, p: Platform, rootName: string, rootPath: string, dirs: seq<string>, i: nat)
    requires i < |dirs|
    ensures DirectoryItems(fs, p, rootName, rootPath, dirs[..i + 1]) ==
      DirectoryItems(fs, p, rootName, rootPath, dirs[..i]) + [DirectoryItem(fs, p, rootName, rootPath, dirs[i])]
  {
  }

  lemma FileItemsStep(fs: FileSystem, p: Platform, rootName: string, rootPath: string, files: seq<string>, j: nat)
    requires j < |files|
    ensures FileItems(fs, p, rootName, rootPath, AllowedFiles(p, files[..j + 1])) ==
      FileItems(fs, p, rootName, rootPath, AllowedFiles(p, files[..j])) +
      (if IsAllowedExtension(p.extension(files[j])) then [FileItemFor(fs, p, rootName, rootPath, files[j])] else [])
  {
    assert files[..j + 1][..j] == files[..j];
    var before := AllowedFiles(p, files[..j]);
    if IsAllowedExtension(p.extension(files[j])) {
      assert AllowedFiles(p, files[..j + 1]) == before + [files[j]];
    } else {
      assert AllowedFiles(p, files[..j + 1]) == before;
    }
  }

  /** The entries before sorting: every subdirectory, then every file with an
      allowed extension, each in enumeration order. */
  function ListedItems(fs: FileSystem, p: Platform, rootName: string, rootPath: string, fullPath: string): seq<FileItem>
    requires DirectoryExists(fs, fullPath)
  {
    DirectoryItems(fs, p, rootName, rootPath, Subdirectories(fs, fullPath)) +
    FileItems(fs, p, rootName, rootPath, AllowedFiles(p, Files(fs, fullPath)))
  }

  /** What `GetDirectoryContents` returns or throws. */
  function ListDirectory(c: NodeConfig, fs: FileSystem, p: Platform, rootName: string, relativePath: Option<string>): (r: Outcome<seq<FileItem>>)
    ensures r.Threw? <==> ResolveDirectory(c, fs, p, rootName, relativePath).Threw?
    ensures r.Threw? ==> r.error == ResolveDirectory(c, fs, p, rootName, relativePath).error
    ensures r.Returned? ==> var t := ResolveDirectory(c, fs, p, rootName, relativePath).value;
      SortedBy(r.value, ListingKey) && multiset(r.value) == multiset(ListedItems(fs, p, rootName, t.rootPath, t.fullPath))
  {
    match ResolveDirectory(c, fs, p, rootName, relativePath)
    case Threw(e) => Threw(e)
    case Returned(t) => Returned(SortBy(ListedItems(fs, p, rootName, t.rootPath, t.fullPath), ListingKey))
  }

  /** `GetDirectoryContents`: the checks, the entries, then the sort. */
  method GetDirectoryContents(c: NodeConfig, fs: FileSystem, p: Platform, rootName: string, relativePath: Option<string>)
    returns (r: Outcome<seq<FileItem>>)
    ensures r == ListDirectory(c, fs, p, rootName, relativePath)
  {
    var resolved := ResolveDirectory(c, fs, p, rootName, relativePath);
    if resolved.Threw? {
      return Threw(resolved.error);
    }
    var items := CollectItems(fs, p, rootName, resolved.value.rootPath, resolved.value.fullPath);
    r := Returned(SortBy(items, ListingKey));
  }

  /** The two loops of `GetDirectoryContents` that collect the entries. */
  method CollectItems(fs: FileSystem, p: Platform, rootName: string, rootPath: string, fullPath: string)
    returns (items: seq<FileItem>)
    requires DirectoryExists(fs, fullPath)
    ensures items == ListedItems(fs, p, rootName, rootPath, fullPath)
  {
    items := [];
    var dirs := Subdirectories(fs, fullPath);
    var i := 0;
    while i < |dirs|
      invariant 0 <= i <= |dirs|
      invariant items == DirectoryItems(fs, p, rootName, rootPath, dirs[..i])
    {
      DirectoryItemsSnoc(fs, p, rootName, rootPath, dirs, i);
      items := items + [DirectoryItem(fs, p, rootName, rootPath, dirs[i])];
      i := i + 1;
    }
    assert dirs[..i] == dirs;
    var files := Files(fs, fullPath);
    var j := 0;
    while j < |files|
      invariant 0 <= j <= |files|
      invariant items == DirectoryItems(fs, p, rootName, rootPath, dirs) +
        FileItems(fs, p, rootName, rootPath, AllowedFiles(p, files[..j]))
    {
      FileItemsStep(fs, p, rootName, rootPath, files, j);
      var extension := ToLower(p.extension(files[j]));
      if extension in AllowedExtensions {
        items := items + [FileItemFor(fs, p, rootName, rootPath, files[j])];
      }
      j := j + 1;
    }
    assert files[..j] == files;
  }

  /** Entry `k` before sorting: a subdirectory's entry for the first ones,
      then an allowed file's entry. */
  lemma ListedItemAt(fs: FileSystem, p: Platform, rootName: string, rootPath: string, fullPath: string, k: nat)
    requires DirectoryExists(fs, fullPath) && k < |ListedItems(fs, p, rootName, rootPath, fullPath)|
    ensures var dirs := Subdirectories(fs, fullPath);
      var files := AllowedFiles(p, Files(fs, fullPath));
      && |ListedItems(fs, p, rootName, rootPath, fullPath)| == |dirs| + |files|
      && (k < |dirs| ==> ListedItems(fs, p, rootName, rootPath, fullPath)[k] == DirectoryItem(fs, p, rootName, rootPath, dirs[k]))
      && (k >= |dirs| ==> ListedItems(fs, p, rootName, rootPath, fullPath)[k] == FileItemFor(fs, p, rootName, rootPath, files[k - |dirs|]))
  {
  }

  lemma DirectoryListed(fs: FileSystem, p: Platform, rootName: string, rootPath: string, fullPath: string, d: string)
    requires DirectoryExists(fs, fullPath) && d in Subdirectories(fs, fullPath)
    ensures DirectoryItem(fs, p, rootName, rootPath, d) in ListedItems(fs, p, rootName, rootPath, fullPath)
  {
    var dirs := Subdirectories(fs, fullPath);
    var k :| 0 <= k < |dirs| && dirs[k] == d;
    assert ListedItems(fs, p, rootName, rootPath, fullPath)[k] == DirectoryItems(fs, p, rootName, rootPath, dirs)[k];
  }

  lemma FileListed(fs: FileSystem, p: Platform, rootName: string, rootPath: string, fullPath: string, f: string)
    requires DirectoryExists(fs, fullPath) && f in AllowedFiles(p, Files(fs, fullPath))
    ensures FileItemFor(fs, p, rootName, rootPath, f) in ListedItems(fs, p, rootName, rootPath, fullPath)
  {
    var dirs := Subdirectories(fs, fullPath);
    var files := AllowedFiles(p, Files(fs, fullPath));
    var k :| 0 <= k < |files| && files[k] == f;
    assert ListedItems(fs, p, rootName, rootPath, fullPath)[|dirs| + k] == FileItems(fs, p, rootName, rootPath, files)[k];
  }

  /** The sorted entries hold every subdirectory and every file with an
      allowed extension. */
  lemma SortedListingComplete(fs: FileSystem, p: Platform, rootName: string, rootPath: string, fullPath: string)
    requires DirectoryExists(fs, fullPath)
    ensures var items := SortBy(ListedItems(fs, p, rootName, rootPath, fullPath), ListingKey);
      && (forall d :: d in Subdirectories(fs, fullPath) ==> DirectoryItem(fs, p, rootName, rootPath, d) in items)
      && (forall f :: f in Files(fs, fullPath) && IsAllowedExtension(p.extension(f)) ==>
            FileItemFor(fs, p, rootName, rootPath, f) in items)
  {
    SortByMembers(ListedItems(fs, p, rootName, rootPath, fullPath), ListingKey);
    AllowedFilesMembers(p, Files(fs, fullPath));
    forall d | d in Subdirectories(fs, fullPath)
      ensures DirectoryItem(fs, p, rootName, rootPath, d) in ListedItems(fs, p, rootName, rootPath, fullPath)
    {
      DirectoryListed(fs, p, rootName, rootPath, fullPath, d);
    }
    forall f | f in Files(fs, fullPath) && IsAllowedExtension(p.extension(f))
      ensures FileItemFor(fs, p, rootName, rootPath, f) in ListedItems(fs, p, rootName, rootPath, fullPath)
    {
      FileListed(fs, p, rootName, rootPath, fullPath, f);
    }
  }

  /** Every sorted entry names the requested root, and directories have size
      0. */
  lemma SortedListingEntries(fs: FileSystem, p: Platform, rootName: string, rootPath: string, fullPath: string)
    requires DirectoryExists(fs, fullPath)
    ensures forall item :: item in SortBy(ListedItems(fs, p, rootName, rootPath, fullPath), ListingKey) ==>
      item.rootName == rootName && (item.isDirectory ==> item.size == 0)
  {
    var listed := ListedItems(fs, p, rootName, rootPath, fullPath);
    forall item | item in SortBy(listed, ListingKey) ensures item.rootName == rootName && (item.isDirectory ==> item.size == 0) {
      assert item in multiset(listed);
      var k :| 0 <= k < |listed| && listed[k] == item;
      ListedItemAt(fs, p, rootName, rootPath, fullPath, k);
    }
  }

  /** Where entry `k` of the unsorted listing comes from. */
  lemma ListedItemSource(fs: FileSystem, p: Platform, rootName: string, rootPath: string, fullPath: string, k: nat)
    requires DirectoryExists(fs, fullPath) && k < |ListedItems(fs, p, rootName, rootPath, fullPath)|
    ensures var item := ListedItems(fs, p, rootName, rootPath, fullPath)[k];
      if item.isDirectory then exists d :: d in Subdirectories(fs, fullPath) && item == DirectoryItem(fs, p, rootName, rootPath, d)
      else exists f :: f in Files(fs, fullPath) && IsAllowedExtension(p.extension(f)) && item == FileItemFor(fs, p, rootName, rootPath, f)
  {
    var dirs := Subdirectories(fs, fullPath);
    var files := AllowedFiles(p, Files(fs, fullPath));
    ListedItemAt(fs, p, rootName, rootPath, fullPath, k);
    if k < |dirs| {
      assert dirs[k] in dirs;
    } else {
      AllowedFilesMembers(p, Files(fs, fullPath));
      assert files[k - |dirs|] in files;
    }
  }

  /** Every sorted entry comes from a subdirectory or from a file with an
      allowed extension, and its kind says which. */
  lemma SortedListingSound(fs: FileSystem, p: Platform, rootName: string, rootPath: string, fullPath: string)
    requires DirectoryExists(fs, fullPath)
    ensures forall item :: item in SortBy(ListedItems(fs, p, rootName, rootPath, fullPath), ListingKey) ==>
      if item.isDirectory then exists d :: d in Subdirectories(fs, fullPath) && item == DirectoryItem(fs, p, rootName, rootPath, d)
      else exists f :: f in Files(fs, fullPath) && IsAllowedExtension(p.extension(f)) && item == FileItemFor(fs, p, rootName, rootPath, f)
  {
    var listed := ListedItems(fs, p, rootName, rootPath, fullPath);
    forall item | item in SortBy(listed, ListingKey)
      ensures if item.isDirectory then exists d :: d in Subdirectories(fs, fullPath) && item == DirectoryItem(fs, p, rootName, rootPath, d)
        else exists f :: f in Files(fs, fullPath) && IsAllowedExtension(p.extension(f)) && item == FileItemFor(fs, p, rootName, rootPath, f)
    {
      assert item in multiset(listed);
      var k :| 0 <= k < |listed| && listed[k] == item;
      ListedItemSource(fs, p, rootName, rootPath, fullPath, k);
    }
  }

  /** A successful listing holds exactly the subdirectories and the files
      with an allowed extension (every file entry comes from such a file),
      directories first and each kind by name;
      directories have size 0 and every entry names the requested root. */
  lemma ListingContents(c: NodeConfig, fs: FileSystem, p: Platform, rootName: string, relativePath: Option<string>)
    requires ListDirectory(c, fs, p, rootName, relativePath).Returned?
    ensures var t := ResolveDirectory(c, fs, p, rootName, relativePath).value;
      var items := ListDirectory(c, fs, p, rootName, relativePath).value;
      && DirectoriesFirstByName(items)
      && multiset(items) == multiset(ListedItems(fs, p, rootName, t.rootPath, t.fullPath))
      && (forall d :: d in Subdirectories(fs, t.fullPath) ==> DirectoryItem(fs, p, rootName, t.rootPath, d) in items)
      && (forall f :: f in Files(fs, t.fullPath) && IsAllowedExtension(p.extension(f)) ==>
            FileItemFor(fs, p, rootName, t.rootPath, f) in items)
      && (forall item :: item in items ==> item.rootName == rootName && (item.isDirectory ==> item.size == 0))
      && (forall item :: item in items && !item.isDirectory ==>
            exists f :: f in Files(fs, t.fullPath) && IsAllowedExtension(p.extension(f)) && item == FileItemFor(fs, p, rootName, t.rootPath, f))
  {
    var t := ResolveDirectory(c, fs, p, rootName, relativePath).value;
    ListingOrder(SortBy(ListedItems(fs, p, rootName, t.rootPath, t.fullPath), ListingKey));
    SortedListingComplete(fs, p, rootName, t.rootPath, t.fullPath);
    SortedListingEntries(fs, p, rootName, t.rootPath, t.fullPath);
    SortedListingSound(fs, p, rootName, t.rootPath, t.fullPath);
  }

  /** `string.IsNullOrEmpty(request.Path) ? rootPath : Path.Combine(rootPath,
      request.Path)`: the requested path is neither normalised nor checked
      against the root. */
  function SearchPath(rootPath: string, path: Option<string>, p: Platform): (r: string)
    ensures path.None? || path.value == [] ==> r == rootPath
    ensures path.Some? && path.value != [] ==> r == p.combine(rootPath, path.value)
  {
    if path.None? || path.value == [] then rootPath else p.combine(rootPath, path.value)
  }

  /** Every file below the search directory with an allowed extension. */
  function CandidateFiles(fs: FileSystem, p: Platform, searchPath: string): (r: seq<string>)
    requires DirectoryExists(fs, searchPath)
    ensures forall f :: f in r <==> f in fs.nodes[searchPath].descendantFiles && IsAllowedExtension(p.extension(f))
  {
    AllowedFilesMembers(p, fs.nodes[searchPath].descendantFiles);
    AllowedFiles(p, fs.nodes[searchPath].descendantFiles)
  }

  /** The result reported for the line a scan stopped at: the path relative
      to the search directory with `\` turned into `/`, the file name, the
      timestamp, the context around the first occurrence and the line
      number. */
  function SearchResultFor(fs: FileSystem, p: Platform, file: string, basePath: string, m: LineMatch, term: string): (r: FileSearchResult)
    requires ContainsIgnoreCase(m.line, term)
    ensures r.filePath == Replace(p.relativeTo(basePath, file), '\\', '/') && p.fileName(file) == r.fileName
    ensures r.lineNumber == m.lineNumber && r.lastModified == LastWriteTime(fs, file)
    ensures r.matchedContent == Snippet(m.line, IndexOfIgnoreCase(m.line, term).value)
  {
    var index := IndexOfIgnoreCase(m.line, term).value;
    FileSearchResult(Replace(p.relativeTo(basePath, file), '\\', '/'), p.fileName(file), LastWriteTime(fs, file),
      Snippet(m.line, index), m.lineNumber)
  }

  /** What `SearchFileAsync` returns for one file: nothing for a file that is
      missing, larger than 10 MiB, unreadable, or without a matching line. */
  function SearchFileSpec(fs: FileSystem, p: Platform, dec: TextDecoder, file: string, basePath: string, term: string): (r: Option<FileSearchResult>)
    ensures r.Some? ==> FileExists(fs, file) && Length(fs, file) <= MaxFileSizeBytes
    ensures r.Some? ==> r.value.lineNumber >= 1 && r.value.fileName == p.fileName(file)
    ensures r.Some? ==> r.value.filePath == Replace(p.relativeTo(basePath, file), '\\', '/')
    ensures r.Some? ==> r.value.lastModified == LastWriteTime(fs, file)
    ensures r.Some? ==> dec.readChunks(fs.nodes[file].bytes).Some?
  {
    if !FileExists(fs, file) || Length(fs, file) > MaxFileSizeBytes then None
    else
      match dec.readChunks(fs.nodes[file].bytes)
      case None => None
      case Some(chunks) =>
        match ScanFrom(chunks, 0, [], 0, term)
        case None => None
        case Some(m) => Some(SearchResultFor(fs, p, file, basePath, m, term))
  }

  /** `SearchFileAsync`. */
  method SearchFile(fs: FileSystem, p: Platform, dec: TextDecoder, file: string, basePath: string, term: string)
    returns (r: Option<FileSearchResult>)
    ensures r == SearchFileSpec(fs, p, dec, file, basePath, term)
  {
    if !FileExists(fs, file) || Length(fs, file) > MaxFileSizeBytes {
      return None;
    }
    var read := dec.readChunks(fs.nodes[file].bytes);
    if read.None? {
      return None;
    }
    var found := ScanLines(read.value, term);
    if found.None? {
      return None;
    }
    r := Some(SearchResultFor(fs, p, file, basePath, found.value, term));
  }

  /** For a term that is not empty, a readable file within the size limit
      yields a result exactly when one of its completed lines contains the
      term, and the result carries the first such line's number. */
  lemma SearchFileFindsFirstLine(fs: FileSystem, p: Platform, dec: TextDecoder, file: string, basePath: string, term: string, chunks: seq<Chunk>)
    requires term != []
    requires FileExists(fs, file) && Length(fs, file) <= MaxFileSizeBytes
    requires dec.readChunks(fs.nodes[file].bytes) == Some(chunks)
    ensures var lines := CompletedLines(StreamText(chunks, 0));
      var r := SearchFileSpec(fs, p, dec, file, basePath, term);
      && (r.Some? <==> exists k :: 0 <= k < |lines| && LineHit(lines[k], term))
      && (r.Some? ==> r.value.lineNumber <= |lines| && LineHit(lines[r.value.lineNumber - 1], term))
      && (r.Some? ==> forall k :: 0 <= k < r.value.lineNumber - 1 ==> !LineHit(lines[k], term))
  {
    ScanFindsFirstMatch(chunks, term);
    FirstMatchSpec(CompletedLines(StreamText(chunks, 0)), term, 0);
  }

  /** For a term that is not empty, the context of a result is the snippet
      around the first occurrence of the term in the matching line (trailing
      `\r` removed), and a term of at most 50 characters appears in it. */
  lemma SearchFileShowsMatch(fs: FileSystem, p: Platform, dec: TextDecoder, file: string, basePath: string, term: string, chunks: seq<Chunk>)
    requires term != []
    requires FileExists(fs, file) && Length(fs, file) <= MaxFileSizeBytes
    requires dec.readChunks(fs.nodes[file].bytes) == Some(chunks)
    ensures var lines := CompletedLines(StreamText(chunks, 0));
      var r := SearchFileSpec(fs, p, dec, file, basePath, term);
      && (r.Some? ==> r.value.lineNumber <= |lines|)
      && (r.Some? ==> var line := TrimEnd(lines[r.value.lineNumber - 1], '\r');
            IndexOfIgnoreCase(line, term).Some? &&
            r.value.matchedContent == Snippet(line, IndexOfIgnoreCase(line, term).value))
      && (r.Some? && |term| <= ContextBefore ==> exists o :: MatchesAt(r.value.matchedContent, term, o))
  {
    var lines := CompletedLines(StreamText(chunks, 0));
    ScanFindsFirstMatch(chunks, term);
    FirstMatchSpec(lines, term, 0);
    var found := ScanFrom(chunks, 0, [], 0, term);
    if found.Some? {
      var m := found.value;
      assert SearchFileSpec(fs, p, dec, file, basePath, term) == Some(SearchResultFor(fs, p, file, basePath, m, term));
      assert m.line == TrimEnd(lines[m.lineNumber - 1], '\r');
      var index := IndexOfIgnoreCase(m.line, term).value;
      IndexOfIgnoreCaseFromSpec(m.line, term, 0);
      if |term| <= ContextBefore {
        ShortTermShown(m.line, term, index);
      }
    }
  }

  /** The results of the files in enumeration order (the parallel loop taken
      in sequence). */
  function Hits(fs: FileSystem, p: Platform, dec: TextDecoder, files: seq<string>, basePath: string, term: string): (r: seq<FileSearchResult>)
    ensures |r| <= |files|
  {
    if files == [] then []
    else
      var last := files[|files| - 1];
      Hits(fs, p, dec, files[..|files| - 1], basePath, term) +
      match SearchFileSpec(fs, p, dec, last, basePath, term) case Some(x) => [x] case None => []
  }

  /** Every hit is the result of one of the files, and every file with a
      result contributes it. */
  lemma {:induction false} HitsComeFromFiles(fs: FileSystem, p: Platform, dec: TextDecoder, files: seq<string>, basePath: string, term: string)
    ensures forall x :: x in Hits(fs, p, dec, files, basePath, term) ==>
      exists f :: f in files && SearchFileSpec(fs, p, dec, f, basePath, term) == Some(x)
    ensures forall f :: f in files && SearchFileSpec(fs, p, dec, f, basePath, term).Some? ==>
      SearchFileSpec(fs, p, dec, f, basePath, term).value in Hits(fs, p, dec, files, basePath, term)
  {
    if files != [] {
      var earlier := files[..|files| - 1];
      var last := files[|files| - 1];
      HitsComeFromFiles(fs, p, dec, earlier, basePath, term);
      assert files == earlier + [last];
      assert forall f :: f in earlier ==> f in files;
    }
  }

  function FilePathKey(r: FileSearchResult): string {
    r.filePath
  }

  /** What `SearchFilesAsync` answers. Every exception is caught and its
      message returned as the error. */
  function SearchFiles(c: NodeConfig, fs: FileSystem, p: Platform, dec: TextDecoder, request: FileSearchRequest): (r: FileSearchResponse)
    ensures r.success <==> r.error.None? && r.results.Some?
    ensures !r.success ==> r.error.Some? && r.results.None?
    ensures r.success <==> (Lookup(c, request.rootName).Some? &&
      DirectoryExists(fs, SearchPath(Lookup(c, request.rootName).value, request.path, p)))
    ensures Lookup(c, request.rootName).None? ==> r.error == Some("Invalid root directory: " + request.rootName)
  {
    match Lookup(c, request.rootName)
    case None => FileSearchResponse(false, Some("Invalid root directory: " + request.rootName), None)
    case Some(rootPath) =>
      var searchPath := SearchPath(rootPath, request.path, p);
      if !DirectoryExists(fs, searchPath) then FileSearchResponse(false, Some("Directory not found: " + searchPath), None)
      else
        var hits := Hits(fs, p, dec, CandidateFiles(fs, p, searchPath), searchPath, request.searchTerm);
        FileSearchResponse(true, None, Some(SortBy(hits, FilePathKey)))
  }

  /** One more candidate adds its result, if it has one. */
  lemma HitsStep(fs: FileSystem, p: Platform, dec: TextDecoder, files: seq<string>, i: nat, basePath: string, term: string,
                 result: Option<FileSearchResult>)
    requires i < |files| && result == SearchFileSpec(fs, p, dec, files[i], basePath, term)
    ensures Hits(fs, p, dec, files[..i + 1], basePath, term) ==
      Hits(fs, p, dec, files[..i], basePath, term) + (if result.Some? then [result.value] else [])
  {
    assert files[..i + 1][..i] == files[..i];
  }

  /** The parallel loop of `SearchFilesAsync`, taken in sequence: every
      candidate's result that is not null is added to the collection. */
  method CollectHits(fs: FileSystem, p: Platform, dec: TextDecoder, files: seq<string>, basePath: string, term: string)
    returns (searchResults: seq<FileSearchResult>)
    ensures searchResults == Hits(fs, p, dec, files, basePath, term)
  {
    searchResults := [];
    var i := 0;
    while i < |files|
      invariant 0 <= i <= |files|
      invariant searchResults == Hits(fs, p, dec, files[..i], basePath, term)
    {
      var result := SearchFile(fs, p, dec, files[i], basePath, term);
      HitsStep(fs, p, dec, files, i, basePath, term, result);
      if result.Some? {
        searchResults := searchResults + [result.value];
      }
      i := i + 1;
    }
    assert files[..i] == files;
  }

  /** `SearchFilesAsync`: one `SearchFileAsync` per candidate file, the
      results collected and ordered by path. */
  method SearchFilesAsync(c: NodeConfig, fs: FileSystem, p: Platform, dec: TextDecoder, request: FileSearchRequest)
    returns (r: FileSearchResponse)
    ensures r == SearchFiles(c, fs, p, dec, request)
  {
    var root := Lookup(c, request.rootName);
    if root.None? {
      return FileSearchResponse(false, Some("Invalid root directory: " + request.rootName), None);
    }
    var searchPath := SearchPath(root.value, request.path, p);
    if !DirectoryExists(fs, searchPath) {
      return FileSearchResponse(false, Some("Directory not found: " + searchPath), None);
    }
    var files := CandidateFiles(fs, p, searchPath);
    var searchResults := CollectHits(fs, p, dec, files, searchPath, request.searchTerm);
    r := FileSearchResponse(true, None, Some(SortBy(searchResults, FilePathKey)));
  }

  /** A successful search lists each hit once, ordered by path; every hit
      comes from a candidate file below the search directory, and every
      candidate with a hit has it listed. */
  lemma SearchResultsOrdered(c: NodeConfig, fs: FileSystem, p: Platform, dec: TextDecoder, request: FileSearchRequest)
    requires SearchFiles(c, fs, p, dec, request).success
    ensures var searchPath := SearchPath(Lookup(c, request.rootName).value, request.path, p);
      var results := SearchFiles(c, fs, p, dec, request).results.value;
      && SortedBy(results, FilePathKey)
      && multiset(results) == multiset(Hits(fs, p, dec, CandidateFiles(fs, p, searchPath), searchPath, request.searchTerm))
      && (forall x :: x in results ==>
            (exists f :: f in CandidateFiles(fs, p, searchPath) && SearchFileSpec(fs, p, dec, f, searchPath, request.searchTerm) == Some(x)))
      && (forall f :: f in CandidateFiles(fs, p, searchPath) && SearchFileSpec(fs, p, dec, f, searchPath, request.searchTerm).Some? ==>
            SearchFileSpec(fs, p, dec, f, searchPath, request.searchTerm).value in results)
  {
    var searchPath := SearchPath(Lookup(c, request.rootName).value, request.path, p);
    var hits := Hits(fs, p, dec, CandidateFiles(fs, p, searchPath), searchPath, request.searchTerm);
    var results := SearchFiles(c, fs, p, dec, request).results.value;
    assert results == SortBy(hits, FilePathKey);
    HitsComeFromFiles(fs, p, dec, CandidateFiles(fs, p, searchPath), searchPath, request.searchTerm);
    SortByMembers(hits, FilePathKey);
  }

  /** Unlike a listing or a read, a search is not confined to the root: a
      requested path whose combination with the root leaves it is searched
      all the same. */
  lemma SearchNotConfinedToRoot(c: NodeConfig, fs: FileSystem, p: Platform, dec: TextDecoder, request: FileSearchRequest)
    requires Lookup(c, request.rootName).Some?
    requires request.path.Some? && request.path.value != []
    requires DirectoryExists(fs, p.combine(Lookup(c, request.rootName).value, request.path.value))
    requires !IsPathWithinRoot(p.combine(Lookup(c, request.rootName).value, request.path.value), Lookup(c, request.rootName).value, p)
    ensures SearchFiles(c, fs, p, dec, request).success
  {
  }
}
