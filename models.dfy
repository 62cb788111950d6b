/** The record types shared by the gateway and the nodes (the C# classes of
    the FileViewer.Models project). A `DateTime` is a tick count, with 0 for
    the default value; a property the code may leave null is an `Option`. */
module Models {
  import opened Common

  /** One exposed root: its configured name and absolute path. */
  datatype RootDirectory = RootDirectory(name: string, path: string)

  /** One entry of a directory listing. `path` is relative to the root, with
      `/` separators. */
  datatype FileItem = FileItem(
    name: string,
    path: string,
    isDirectory: bool,
    rootName: string,
    lastModified: int,
    size: int)

  /** The answer to a file read. */
  datatype FileReadResult = FileReadResult(
    success: bool,
    contents: Option<string>,
    errorMessage: Option<string>,
    encoding: Option<string>,
    fileSizeBytes: int)

  /** A search request as posted to the gateway and forwarded to a node. */
  datatype FileSearchRequest = FileSearchRequest(
    serverId: string,
    rootName: string,
    path: Option<string>,
    searchTerm: string)

  /** The first match found in one file. */
  datatype FileSearchResult = FileSearchResult(
    filePath: string,
    fileName: string,
    lastModified: int,
    matchedContent: string,
    lineNumber: int)

  datatype FileSearchResponse = FileSearchResponse(
    success: bool,
    error: Option<string>,
    results: Option<seq<FileSearchResult>>)

  /** A configured file server (node) as the gateway sees it. */
  datatype FileServer = FileServer(
    id: string,
    name: string,
    internalUrl: string,
    isHealthy: bool,
    lastChecked: int,
    apiKey: string)

  /** The envelope the gateway returns for every proxied call. */
  datatype FileServerResponse<T> = FileServerResponse(
    success: bool,
    data: Option<T>,
    errorMessage: Option<string>,
    serverId: string)
}
