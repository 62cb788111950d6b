/** The API node's `FileService`. It checks and reads exactly as the agent
    does (`NodeFiles.ReadFileContents`), but its listing leaves the timestamp
    and the size of every entry at their defaults, and it has no search. */
module ApiFileService {
  import opened Common
  import opened Text
  import opened Seqs
  import opened Models
  import opened Host
  import opened Paths
  import opened NodeFiles
  import AgentFileService

  /** A listing entry as this node builds it: name, web path, kind and root
      only. */
  function Entry(p: Platform, rootName: string, rootPath: string, path: string, isDirectory: bool): FileItem {
    FileItem(p.fileName(path), ConvertToWebPath(p.relativeTo(rootPath, path), p), isDirectory, rootName, 0, 0)
  }

  function Entries(p: Platform, rootName: string, rootPath: string, paths: seq<string>, isDirectory: bool): seq<FileItem> {
    seq(|paths|, i requires 0 <= i < |paths| => Entry(p, rootName, rootPath, paths[i], isDirectory))
  }

  function ListedItems(fs: FileSystem, p: Platform, rootName: string, rootPath: string, fullPath: string): seq<FileItem>
    requires DirectoryExists(fs, fullPath)
  {
    Entries(p, rootName, rootPath, Subdirectories(fs, fullPath), true) +
    Entries(p, rootName, rootPath, AllowedFiles(p, Files(fs, fullPath)), false)
  }

  /** What `GetDirectoryContents` returns or throws. */
  function ListDirectory(c: NodeConfig, fs: FileSystem, p: Platform, rootName: string, relativePath: Option<string>): (r: Outcome<seq<FileItem>>)
    ensures r.Threw? <==> ResolveDirectory(c, fs, p, rootName, relativePath).Threw?
    ensures r.Threw? ==> r.error == ResolveDirectory(c, fs, p, rootName, relativePath).error
    ensures r.Returned? ==> var t := ResolveDirectory(c, fs, p, rootName, relativePath).value;
      SortedBy(r.value, ListingKey) && multiset(r.value) == multiset(ListedItems(fs, p, rootName, t.rootPath, t.fullPath))
  {
    match ResolveDirectory(c, fs, p, rootName, relativePath)
    case Threw(e) => Threw(e)
    case Returned(t) => Returned(SortBy(ListedItems(fs, p, rootName, t.rootPath, t.fullPath), ListingKey))
  }

  lemma EntriesSnoc(p: Platform, rootName: string, rootPath: string, paths: seq<string>, i: nat, isDirectory: bool)
    requires i < |paths|
    ensures Entries(p, rootName, rootPath, paths[..i + 1], isDirectory) ==
      Entries(p, rootName, rootPath, paths[..i], isDirectory) + [Entry(p, rootName, rootPath, paths[i], isDirectory)]
  {
  }

  lemma AllowedEntriesStep(p: Platform, rootName: string, rootPath: string, files: seq<string>, j: nat)
    requires j < |files|
    ensures Entries(p, rootName, rootPath, AllowedFiles(p, files[..j + 1]), false) ==
      Entries(p, rootName, rootPath, AllowedFiles(p, files[..j]), false) +
      (if IsAllowedExtension(p.extension(files[j])) then [Entry(p, rootName, rootPath, files[j], false)] else [])
  {
    assert files[..j + 1][..j] == files[..j];
    var before := AllowedFiles(p, files[..j]);
    if IsAllowedExtension(p.extension(files[j])) {
      assert AllowedFiles(p, files[..j + 1]) == before + [files[j]];
    } else {
      assert AllowedFiles(p, files[..j + 1]) == before;
    }
  }

  /** `GetDirectoryContents`: the checks, the entries, then the sort. */
  method GetDirectoryContents(c: NodeConfig, fs: FileSystem, p: Platform, rootName: string, relativePath: Option<string>)
    returns (r: Outcome<seq<FileItem>>)
    ensures r == ListDirectory(c, fs, p, rootName, relativePath)
  {
    var resolved := ResolveDirectory(c, fs, p, rootName, relativePath);
    if resolved.Threw? {
      return Threw(resolved.error);
    }
    var items := CollectItems(fs, p, rootName, resolved.value.rootPath, resolved.value.fullPath);
    r := Returned(SortBy(items, ListingKey));
  }

  /** The two loops of `GetDirectoryContents` that collect the entries. */
  method CollectItems(fs: FileSystem, p: Platform, rootName: string, rootPath: string, fullPath: string)
    returns (items: seq<FileItem>)
    requires DirectoryExists(fs, fullPath)
    ensures items == ListedItems(fs, p, rootName, rootPath, fullPath)
  {
    items := [];
    var dirs := Subdirectories(fs, fullPath);
    var i := 0;
    while i < |dirs|
      invariant 0 <= i <= |dirs|
      invariant items == Entries(p, rootName, rootPath, dirs[..i], true)
    {
      EntriesSnoc(p, rootName, rootPath, dirs, i, true);
      items := items + [Entry(p, rootName, rootPath, dirs[i], true)];
      i := i + 1;
    }
    assert dirs[..i] == dirs;
    var files := Files(fs, fullPath);
    var j := 0;
    while j < |files|
      invariant 0 <= j <= |files|
      invariant items == Entries(p, rootName, rootPath, dirs, true) +
        Entries(p, rootName, rootPath, AllowedFiles(p, files[..j]), false)
    {
      AllowedEntriesStep(p, rootName, rootPath, files, j);
      var extension := ToLower(p.extension(files[j]));
      if extension in AllowedExtensions {
        items := items + [Entry(p, rootName, rootPath, files[j], false)];
      }
      j := j + 1;
    }
    assert files[..j] == files;
  }

  /** An entry with the timestamp and the size left at their defaults. */
  function ClearMetadata(item: FileItem): FileItem {
    item.(lastModified := 0, size := 0)
  }

  /** Clearing the metadata keeps the sort key. */
  lemma ClearMetadataKeepsKey()
    ensures forall y :: ListingKey(ClearMetadata(y)) == ListingKey(y)
  {
  }

  /** Before sorting, this node's entries are the agent's with the metadata
      cleared. */
  lemma ListedItemsCleared(fs: FileSystem, p: Platform, rootName: string, rootPath: string, fullPath: string)
    requires DirectoryExists(fs, fullPath)
    ensures ListedItems(fs, p, rootName, rootPath, fullPath) ==
      Map(AgentFileService.ListedItems(fs, p, rootName, rootPath, fullPath), ClearMetadata)
  {
    var dirs := Subdirectories(fs, fullPath);
    var files := AllowedFiles(p, Files(fs, fullPath));
    var agentItems := AgentFileService.ListedItems(fs, p, rootName, rootPath, fullPath);
    var items := ListedItems(fs, p, rootName, rootPath, fullPath);
    assert |items| == |agentItems| == |dirs| + |files|;
    forall k | 0 <= k < |items| ensures items[k] == ClearMetadata(agentItems[k]) {
      if k < |dirs| {
        assert items[k] == Entry(p, rootName, rootPath, dirs[k], true);
        assert agentItems[k] == AgentFileService.DirectoryItem(fs, p, rootName, rootPath, dirs[k]);
      } else {
        assert items[k] == Entry(p, rootName, rootPath, files[k - |dirs|], false);
        assert agentItems[k] == AgentFileService.FileItemFor(fs, p, rootName, rootPath, files[k - |dirs|]);
      }
    }
  }

  /** This node lists the same entries as the agent, in the same order and
      with the same errors, with the timestamp and the size cleared. */
  lemma SameListingAsAgent(c: NodeConfig, fs: FileSystem, p: Platform, rootName: string, relativePath: Option<string>)
    ensures ListDirectory(c, fs, p, rootName, relativePath) ==
      match AgentFileService.ListDirectory(c, fs, p, rootName, relativePath)
      case Threw(e) => Threw(e)
      case Returned(items) => Returned(Map(items, ClearMetadata))
  {
    match ResolveDirectory(c, fs, p, rootName, relativePath)
    case Threw(e) =>
    case Returned(t) =>
      ListedItemsCleared(fs, p, rootName, t.rootPath, t.fullPath);
      ClearMetadataKeepsKey();
      SortByMap(AgentFileService.ListedItems(fs, p, rootName, t.rootPath, t.fullPath), ClearMetadata, ListingKey, ListingKey);
  }
}
