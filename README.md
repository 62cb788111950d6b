# FileViewer core in Dafny

FileViewer lets an operator browse and search log and text files that live on
several file-serving nodes, through one gateway. This project models three
parts of it and proves properties of the model:

- the **agent node's file service** (`FileViewerAgent/Services/FileService.cs`):
  - path normalisation and the containment check;
  - directory listing with extension filter and ordering;
  - the bounded file read and the byte-order-mark table;
  - the chunked line scanner with its snippet window;
  - the recursive search.
- the **API node's file service** (`FileViewerApi/Services/FileService.cs`).
  It is the same as the agent's without search, and its listing leaves the
  timestamp and the size at their defaults.
- the **gateway's server registry** (`CentralApi/Services/FileServerManager.cs`):
  - the static server list, refreshed with one health probe per server;
  - the first-match lookup by id;
  - the translation of a node's HTTP answer into the response envelope;
  - the separate error table of the search call.

The record types of `FileViewer.Models` are datatypes (`Models`).

The file system is a map from paths to nodes (`Host.FileSystem`). Several
operations are given functions and are not modelled:

- the .NET path primitives: `Path.Combine`, `GetFullPath`, `GetRelativePath`,
  `GetFileName`, `GetExtension`, the separator and the invalid characters;
  all of these are fields of `Host.Platform`;
- text decoding by `StreamReader`, a field of `Host.TextDecoder`;
- the HTTP client, a `transport` function from request to outcome;
- JSON decoding and `Uri.EscapeDataString`, passed as parameters.

A method throws either by returning a value or by raising a .NET exception;
the model writes this as `Common.Outcome`.

Modules:

| module | file | what it holds |
|---|---|---|
| `Common` | common.dfy | `Option` (a nullable value), `Exception`, `Outcome` |
| `Text` | text.dfy | case folding, case-insensitive prefix and substring search, `TrimEnd`, `Replace`, removal of characters, ordinal string order |
| `Seqs` | seqs.dfy | filter, map and a stable sort by a string key |
| `Models` | models.dfy | the record types |
| `Encodings` | encodings.dfy | the byte-order-mark table |
| `Host` | host.dfy | platform primitives, file system, text decoder |
| `Paths` | paths.dfy | `NormalizePath`, `ConvertToWebPath`, `IsPathWithinRoot` |
| `NodeFiles` | node_files.dfy | what both nodes share: root lookup, extension filter, directory resolution, `ReadFileContents`, listing order |
| `LineScan` | line_scan.dfy | the chunked line scanner and the snippet |
| `AgentFileService` | agent_file_service.dfy | agent listing and search |
| `ApiFileService` | api_file_service.dfy | API listing |
| `Gateway` | file_server_manager.dfy | `FileServerManager` |

The loops of the source are methods with loop invariants, each proved equal
to a specification function:

- the two listing loops;
- the character loop of the scanner, over a 4096-character buffer;
- the loop over the search candidates;
- the health-refresh loop over the server list.

The gateway's `FileServerManager` is a class whose `servers` field is the
static list. It is `None` while the list is still null.

## Model

| member | source | states |
|---|---|---|
| Text.StartsWithIgnoreCase | FileViewerAgent/Services/FileService.cs:375 | `StartsWith(…, OrdinalIgnoreCase)`: true exactly when the prefix is no longer than the string and every position agrees after case folding |
| Text.IndexOfIgnoreCaseFrom | FileViewerAgent/Services/FileService.cs:246-248 | a reported position lies within the line |
| Text.IndexOfIgnoreCaseFromSpec | FileViewerAgent/Services/FileService.cs:246-248 | the match an escaped literal pattern with IgnoreCase finds: an occurrence of the term, ignoring case, that fits in the line, with none before it; None exactly when it occurs nowhere |
| Text.IndexOfIgnoreCase | FileViewerAgent/Services/FileService.cs:272 | `Match(...).Index` from the start of the line: a reported position lies within the line |
| Text.TrimEnd | FileViewerAgent/Services/FileService.cs:245 | `TrimEnd('\r')`: the result is a prefix of the line, does not end in `\r`, and only `\r` characters were removed |
| Text.Replace | FileViewerAgent/Services/FileService.cs:284 | `Replace(from, to)` on characters keeps the length and, when the two differ, leaves no `from` behind |
| Text.RemoveChars | FileViewerAgent/Services/FileService.cs:361-362 | `string.Join("", path.Split(invalidChars))`: no invalid character is left, and every other character keeps its count |
| Text.ReplaceCounts | FileViewerAgent/Services/FileService.cs:358 | `Replace('/', separator)` leaves no `/`, adds the `/` count to the separator's, and keeps all other counts |
| Seqs.SortBy | FileViewerAgent/Services/FileService.cs:95 | the `OrderBy` used by listing and search: the result is sorted by the key and is a permutation of the input |
| Seqs.SortByMap | FileViewerApi/Services/FileService.cs:81 | sorting commutes with a map that keeps the key, so clearing metadata before or after the sort gives the same list |
| Paths.NormalizePath | FileViewerAgent/Services/FileService.cs:352-363 | null or empty gives `""`; otherwise the result is no longer than the input, has no invalid character, no `/` on a platform whose separator is not `/`, and every `/` became a separator; the API node's copy at FileViewerApi/Services/FileService.cs:180-191 is the same |
| Paths.ConvertToWebPath | FileViewerAgent/Services/FileService.cs:365-369 | length kept; no native separator is left; the API node's copy at FileViewerApi/Services/FileService.cs:193-197 is the same |
| Paths.IsPathWithinRoot | FileViewerAgent/Services/FileService.cs:371-376 | true exactly when the canonical root is a case-insensitive prefix of the canonical path; the API node's copy at FileViewerApi/Services/FileService.cs:199-204 is the same |
| Paths.WebPathRoundTrip | FileViewerAgent/Services/FileService.cs:352-369 | a web path with no invalid character and no native separator comes back unchanged from `NormalizePath` and then `ConvertToWebPath` |
| Paths.NormalizeIdempotent | FileViewerAgent/Services/FileService.cs:352-363 | normalising twice equals normalising once |
| Paths.RootIsWithinRoot | FileViewerAgent/Services/FileService.cs:371-376 | the root is within itself |
| Paths.CanonicalPrefixIsWithinRoot | FileViewerAgent/Services/FileService.cs:371-376 | any path whose canonical form extends the canonical root is accepted; there is no separator check |
| Paths.PrefixSiblingIsWithinRoot | FileViewerAgent/Services/FileService.cs:375 | `/data/logs2` is accepted for root `/data/logs` |
| Paths.CaseIgnoredByContainment | FileViewerAgent/Services/FileService.cs:375 | `/D/a` is accepted for root `/d` |
| Paths.ParentSegments | FileViewerAgent/Services/FileService.cs:373-375 | a `..` that canonicalises out of the root is rejected; one that stays inside is accepted |
| Encodings.FirstSignatureFrom | FileViewerAgent/Services/FileService.cs:328-333 | the first row of the ordered signature table whose mark begins the bytes; None exactly when no row matches |
| Encodings.DetectFollowsSignatures | FileViewerAgent/Services/FileService.cs:318-349 | the encoding is the first matching row of the table, else UTF-8 when the reader sniffed a Unicode encoding, else the system default; the API node's copy at FileViewerApi/Services/FileService.cs:146-178 is the same |
| Encodings.StandardMarksRecognised | FileViewerAgent/Services/FileService.cs:328-333 | `2B 2F 76` is UTF-7, `EF BB BF` is UTF-8, `FF FE 00 00` is UTF-32LE ahead of UTF-16LE, `FF FE` otherwise is UTF-16LE, `FE FF` is UTF-16BE, `00 00 FE FF` is UTF-32BE; the API node's copy at FileViewerApi/Services/FileService.cs:156-161 is the same |
| Encodings.DetectFileEncoding | FileViewerAgent/Services/FileService.cs:318-349 | UTF-7 exactly when the file starts with `2B 2F 76`; UTF-8 only for the `EF BB BF` mark or a sniffed Unicode encoding; the system default only when nothing was sniffed; the API node's copy at FileViewerApi/Services/FileService.cs:146-178 is the same |
| Encodings.ShortFilesArePadded | FileViewerAgent/Services/FileService.cs:321-325 | the 4-byte buffer starts zeroed, so a 2- or 3-byte file holding the UTF-16LE mark is reported as UTF-32LE, and an empty file matches no mark |
| NodeFiles.LookupFrom | FileViewerAgent/Services/FileService.cs:39 | `TryGetValue` on the configured roots: None exactly when no root has the name; otherwise the path of a root with that name |
| NodeFiles.GetRootDirectories | FileViewerAgent/Services/FileService.cs:28-35 | one entry per configured root, and every advertised name is accepted by the lookup; the API node's copy at FileViewerApi/Services/FileService.cs:19-26 is the same |
| NodeFiles.AdvertisedRootsResolve | FileViewerAgent/Services/FileService.cs:28-35 | every root `GetRootDirectories` advertises resolves to its own path, and a name is refused exactly when it is not advertised |
| NodeFiles.ExtensionFilter | FileViewerAgent/Services/FileService.cs:79-80 | `.log`, `.TXT` and `.Log` pass; `.gz`, `.json`, `""`, `.logs` and `log` do not |
| NodeFiles.AllowedFiles | FileViewerAgent/Services/FileService.cs:77-80 | the filtered list is no longer than the enumeration |
| NodeFiles.AllowedFilesMembers | FileViewerAgent/Services/FileService.cs:182-184 | a file is kept exactly when it was enumerated and its lower-cased extension is `.log` or `.txt` |
| NodeFiles.ResolveDirectory | FileViewerAgent/Services/FileService.cs:39-57 | an unknown root throws `ArgumentException` first; a missing target throws `DirectoryNotFoundException` before containment is checked; an existing target outside the root throws `UnauthorizedAccessException`; on success the directory exists and is within the root; a known root whose existing target lies within it always resolves, to that root and target; the API node's copy at FileViewerApi/Services/FileService.cs:30-48 is the same |
| NodeFiles.ReadAllowedFile | FileViewerAgent/Services/FileService.cs:124-157 | the size is reported on every path; above 10·1024·1024 bytes the result fails with the size message and no contents; otherwise it succeeds exactly when decoding succeeds, with the contents and the encoding's web name |
| NodeFiles.ReadFileContents | FileViewerAgent/Services/FileService.cs:98-158 | errors in order: unknown root (`ArgumentException`), missing file (`FileNotFoundException`), outside the root (`UnauthorizedAccessException` "Access to this file is not allowed"), disallowed extension (`UnauthorizedAccessException` "File type not allowed: " and the lower-cased extension); it returns exactly when all four checks pass, and then gives the read outcome of the file's bytes; the API node's copy at FileViewerApi/Services/FileService.cs:84-144 is the same |
| NodeFiles.ErrorsRevealExistence | FileViewerAgent/Services/FileService.cs:108-116 | for a path outside the root the error still tells whether the file exists |
| NodeFiles.ListingOrder | FileViewerAgent/Services/FileService.cs:95 | sorted by the listing key exactly when directories come before files and each kind is ordered by name |
| LineScan.ScanChunk | FileViewerAgent/Services/FileService.cs:240-261 | the processing of one buffer: a recorded match is a non-empty line holding the term, with a later line number |
| LineScan.ScanFrom | FileViewerAgent/Services/FileService.cs:235-265 | the chunk loop: a recorded match is a non-empty line holding the term, numbered after the lines already read |
| LineScan.FirstMatch | FileViewerAgent/Services/FileService.cs:242-253 | a found line is numbered after the lines before it and within the lines given |
| LineScan.FirstMatchSpec | FileViewerAgent/Services/FileService.cs:242-253 | the line-level specification: the first completed line (with trailing `\r` removed) that holds the term, with its 1-based number; no earlier line holds it; None exactly when no line does |
| LineScan.FirstMatchCons | FileViewerAgent/Services/FileService.cs:242-253 | lines are tried in order: the first line is the answer when it holds the term, otherwise the search goes on with the rest, one number further |
| LineScan.ReadChunk | FileViewerAgent/Services/FileService.cs:237 | `ReadAsync` fills the buffer's prefix with the chunk and returns its length |
| LineScan.ScanLines | FileViewerAgent/Services/FileService.cs:228-265 | the imperative scanner equals the chunk specification and, for a non-empty term, the first matching completed line of the whole stream, whatever the chunk boundaries |
| LineScan.ScanTextFindsFirstMatch | FileViewerAgent/Services/FileService.cs:242-259 | the character scanner finds the first completed line that holds the term |
| LineScan.ScanChunkAgreesWithText | FileViewerAgent/Services/FileService.cs:240-261 | for a non-empty term, cutting the text into a chunk and the rest changes nothing |
| LineScan.ScanFromAgreesWithText | FileViewerAgent/Services/FileService.cs:235-265 | for a non-empty term, the chunk loop gives what the scanner gives on the concatenated text |
| LineScan.ScanFindsFirstMatch | FileViewerAgent/Services/FileService.cs:228-265 | for a non-empty term, the chunked scan finds the first completed line holding the term |
| LineScan.UnterminatedLastLineIgnored | FileViewerAgent/Services/FileService.cs:242-265 | a last line without `\n` is never searched, even when it holds the term |
| LineScan.TerminatedLineFound | FileViewerAgent/Services/FileService.cs:242-253 | the same line ended by `\n` is found, as line 1 |
| LineScan.EmptyTermDependsOnChunking | FileViewerAgent/Services/FileService.cs:248-264 | with the empty term a match on an empty line records nothing and skips the rest of the buffer, so the same text cut differently gives different answers |
| LineScan.Snippet | FileViewerAgent/Services/FileService.cs:272-280 | the window starts at most 50 before the match and holds at most 100 characters of the line, always in range; `...` is prepended exactly when it starts after 0 and appended exactly when it stops before the end; a short line is returned whole |
| LineScan.SnippetShowsShortTerm | FileViewerAgent/Services/FileService.cs:272-280 | a term of at most 50 characters is shown whole in the snippet |
| LineScan.ShortTermShown | FileViewerAgent/Services/FileService.cs:272-280 | the context shown for an occurrence of a term of at most 50 characters holds that term, ignoring case |
| LineScan.SnippetCutsLongTerm | FileViewerAgent/Services/FileService.cs:272-280 | a longer term far enough into the line is cut off by the window |
| AgentFileService.GetDirectoryContents | FileViewerAgent/Services/FileService.cs:37-96 | the method's result is the listing specification: the resolution errors, or the sorted entries |
| AgentFileService.ListDirectory | FileViewerAgent/Services/FileService.cs:37-96 | fails exactly when resolution fails, with the same error; otherwise the entries sorted by the listing key, a permutation of the collected entries |
| AgentFileService.CollectItems | FileViewerAgent/Services/FileService.cs:59-93 | the two loops produce every subdirectory entry, then every allowed file's entry, in enumeration order |
| AgentFileService.DirectoryListed | FileViewerAgent/Services/FileService.cs:62-74 | every subdirectory has an entry |
| AgentFileService.FileListed | FileViewerAgent/Services/FileService.cs:77-93 | every file with an allowed extension has an entry |
| AgentFileService.SortedListingComplete | FileViewerAgent/Services/FileService.cs:59-95 | the sorted listing holds every subdirectory and every allowed file |
| AgentFileService.SortedListingEntries | FileViewerAgent/Services/FileService.cs:65-90 | every entry names the requested root, and directories have size 0 |
| AgentFileService.ListedItemAt | FileViewerAgent/Services/FileService.cs:59-90 | the unsorted entries are the subdirectories in enumeration order followed by the allowed files in enumeration order |
| AgentFileService.ListedItemSource | FileViewerAgent/Services/FileService.cs:59-90 | each unsorted entry comes from a subdirectory or an allowed file, as its kind says |
| AgentFileService.SortedListingSound | FileViewerAgent/Services/FileService.cs:59-95 | every entry comes from a subdirectory or from a file with an allowed extension, as its kind says |
| AgentFileService.ListingContents | FileViewerAgent/Services/FileService.cs:59-95 | a successful listing is a permutation of the entries, directories first and each kind by name, complete, sound, with the root name and directory size 0 |
| AgentFileService.SearchFileSpec | FileViewerAgent/Services/FileService.cs:213-298 | a hit comes from an existing, readable file of at most 10 MiB, with a line number of at least 1, the file's name, its timestamp, and its path relative to the search directory with `\` turned into `/` |
| AgentFileService.SearchResultFor | FileViewerAgent/Services/FileService.cs:269-288 | the result carries the path relative to the search directory with `\` turned into `/`, the file's name and timestamp, the line number of the match and the snippet around the first occurrence of the term in the line |
| AgentFileService.SearchPath | FileViewerAgent/Services/FileService.cs:169-171 | the root itself when no path or an empty path is given, otherwise the requested path combined with the root as given, without the normalisation a listing or a read applies |
| AgentFileService.CandidateFiles | FileViewerAgent/Services/FileService.cs:182-184 | exactly the files below the search directory, at any depth, whose lower-cased extension is allowed |
| AgentFileService.SearchFile | FileViewerAgent/Services/FileService.cs:213-298 | the method's result is the per-file specification |
| AgentFileService.SearchFileFindsFirstLine | FileViewerAgent/Services/FileService.cs:228-289 | for a non-empty term a readable file within the limit gives a hit exactly when a completed line holds the term, numbered as the first such line |
| AgentFileService.SearchFileShowsMatch | FileViewerAgent/Services/FileService.cs:269-288 | for a non-empty term the context of a hit is the snippet around the first occurrence in the matching line (trailing `\r` removed), and a term of at most 50 characters appears in it |
| AgentFileService.Hits | FileViewerAgent/Services/FileService.cs:187-194 | at most one hit per candidate |
| AgentFileService.HitsComeFromFiles | FileViewerAgent/Services/FileService.cs:187-194 | every hit is the per-file result of some candidate, and every candidate with a result contributes it |
| AgentFileService.HitsStep | FileViewerAgent/Services/FileService.cs:186-193 | handling one more candidate appends its result when it has one and nothing otherwise |
| AgentFileService.CollectHits | FileViewerAgent/Services/FileService.cs:186-193 | the loop over the candidates collects exactly the per-file results, in candidate order |
| AgentFileService.SearchFiles | FileViewerAgent/Services/FileService.cs:160-211 | success exactly when the root is known and the search directory exists; then results and no error; otherwise an error and no results, with the unknown-root message |
| AgentFileService.SearchFilesAsync | FileViewerAgent/Services/FileService.cs:160-211 | the method's result is the search specification |
| AgentFileService.SearchResultsOrdered | FileViewerAgent/Services/FileService.cs:182-199 | the results are sorted by path, are a permutation of the per-file hits, each comes from a candidate file, and every candidate with a hit has it listed |
| AgentFileService.SearchNotConfinedToRoot | FileViewerAgent/Services/FileService.cs:169-176 | a requested path that leads out of the root is searched all the same |
| ApiFileService.GetDirectoryContents | FileViewerApi/Services/FileService.cs:28-82 | the method's result is the API listing specification |
| ApiFileService.ListDirectory | FileViewerApi/Services/FileService.cs:28-82 | fails exactly when resolution fails, with the same error; otherwise the entries sorted by the listing key, a permutation of the collected entries |
| ApiFileService.CollectItems | FileViewerApi/Services/FileService.cs:50-79 | the two loops produce the subdirectory entries, then the allowed files' entries, without timestamp or size |
| ApiFileService.ListedItemsCleared | FileViewerApi/Services/FileService.cs:50-79 | before sorting, the API entries are the agent's with timestamp and size cleared |
| ApiFileService.SameListingAsAgent | FileViewerApi/Services/FileService.cs:28-82 | the API listing is the agent's listing with timestamp and size cleared, with the same errors |
| Gateway.IndexOfServer | CentralApi/Services/FileServerManager.cs:164 | `FirstOrDefault`: the position of the first server with the id; None exactly when no server has it |
| Gateway.FindServer | CentralApi/Services/FileServerManager.cs:164 | a server found has the id and is in the list; none is found exactly when no server has the id |
| Gateway.FindServerUnique | CentralApi/Services/FileServerManager.cs:164 | with distinct ids every server is found by its own id |
| Gateway.ProbeHealthy | CentralApi/Services/FileServerManager.cs:43-55 | healthy exactly when the health request gets a success status; an exception gives false |
| Gateway.ProbeIgnoresOtherFields | CentralApi/Services/FileServerManager.cs:45-46 | the probe depends only on the URL and the key |
| Gateway.Refreshed | CentralApi/Services/FileServerManager.cs:27-33 | the refreshed list has the configured length, and each entry differs from the configured one at most in `IsHealthy` (so `LastChecked` is never written) |
| Gateway.RefreshedHealth | CentralApi/Services/FileServerManager.cs:30-33 | with distinct ids each server's flag is its own probe, and order, ids and `LastChecked` are kept |
| Gateway.DuplicateIdsShareHealth | CentralApi/Services/FileServerManager.cs:32 | two entries with the same id get the same flag, the probe of the first |
| Gateway.FindServerIgnoresHealth | CentralApi/Services/FileServerManager.cs:32 | updating health flags does not change which server a lookup finds |
| Gateway.RefreshStep | CentralApi/Services/FileServerManager.cs:30-33 | one iteration of the loop advances the refresh by one server |
| Gateway.Envelope | CentralApi/Services/FileServerManager.cs:124-158 | the server id is kept; success exactly on a success status with a readable body, carrying the data; a failure status carries its body; an exception carries the fixed communication message |
| Gateway.FileServerManager.GetServerById | CentralApi/Services/FileServerManager.cs:161-165 | throws exactly while the list is still null; otherwise the server found has the id and sits at a position before which no server has the id, as `FirstOrDefault` picks it; null means no server has the id |
| Gateway.FileServerManager.CheckServerHealth | CentralApi/Services/FileServerManager.cs:38-56 | false for an unknown id; otherwise whether the probe got a success status; the lookup is outside the `try` |
| Gateway.FileServerManager.GetServers | CentralApi/Services/FileServerManager.cs:25-36 | the list becomes the configured one (or empty) with every flag refreshed, and that list is returned |
| Gateway.RefreshedAgreesWithCheck | CentralApi/Services/FileServerManager.cs:25-56 | after the refresh each flag equals what `CheckServerHealth` answers for its id |
| Gateway.FileServerManager.SendRequest | CentralApi/Services/FileServerManager.cs:111-159 | throws only while the list is null; the envelope carries the requested id on every path; an unknown server gives "Server not found"; a known one gets the translated answer to GET `{InternalUrl}/{relativePath}` |
| Gateway.FileServerManager.GetRootDirectories | CentralApi/Services/FileServerManager.cs:58-61 | the request goes to `api/FileApi/roots` |
| Gateway.FileServerManager.Browse | CentralApi/Services/FileServerManager.cs:63-68 | the request goes to the escaped browse query, with a null path sent as `""` |
| Gateway.FileServerManager.GetFileContents | CentralApi/Services/FileServerManager.cs:70-75 | a null path throws `ArgumentNullException` before any request; otherwise the request goes to the escaped file query |
| Gateway.NullPathHandling | CentralApi/Services/FileServerManager.cs:63-75 | browse treats a null path as `""`, while a file read with a null path throws |
| Gateway.FileServerManager.Search | CentralApi/Services/FileServerManager.cs:77-109 | an unknown server gives "Server not found" with empty results; a failure status gives "Error performing search" with empty results; a transport exception propagates; a success returns the decoded body, which may be null |

## Left out

- Case folding is ASCII-only. `OrdinalIgnoreCase`, the regex's IgnoreCase and `ToLower` are all modelled this way.
- Characters are Unicode scalar values, whereas .NET strings count UTF-16 code units. The 4096-character read buffer and the 50/100-character context window therefore cut text outside the Basic Multilingual Plane at other places than the source does.
- The culture-sensitive `OrderBy` is modelled as an ordinal order by key, using a stable insertion sort.
- The regex is built from an escaped term, so it is modelled as a case-insensitive literal substring search. `FormatMobileNumberPattern` is never called and is not modelled; nor is `SearchType`.
- `DateTime` values are integers. Local and UTC time are not distinguished, and the file system does not change while a call runs.
- Logging is not modelled.
- Constructors that read configuration are not modelled. The root map and the server list are given values; a missing root map throws at construction and is not modelled.
- Concurrency is not modelled:
  - `Parallel.ForEachAsync` with a `ConcurrentBag` is a sequential fold. Results with equal paths therefore keep candidate order, where the source leaves their order open.
  - Concurrent calls that replace the static server list are not modelled. That list is a field of one `FileServerManager` object.
- `Host.TextDecoder`: `StreamReader` decoding, the sniff for a BOM-less Unicode file and `File.ReadAllText` are given functions.
  - A chunked read either yields all chunks or fails.
  - A read error after the matching line cannot be told apart from one before it.
- UTF-7 is classified on its first three bytes only, as the source does. The fourth byte of the RFC 2152 signature is not checked.
- Null strings are modelled only for relative paths and the gateway's path argument. A null root name, search term or server id is not modelled.
- The gateway's HTTP client is a given function, as are JSON decoding and `Uri.EscapeDataString`. The probe of a server always gives the same answer for the same request.
- SearchFiles: enumerating a directory never fails in the model. An unreadable subdirectory makes `Directory.GetFiles` throw; in the source that fails the whole search with `Success = false` and the exception's message, and it fails a listing with the exception. Neither failure is modelled.
- Behaviour of the code that is easy to miss:
  - the health refresh runs one probe after another, never writes `LastChecked`, and updates the list in place;
  - the search directory is neither normalised nor checked against the root;
  - a disallowed extension on read throws instead of giving a failed result;
  - the containment check is a plain prefix test, so a sibling directory with a longer name passes;
  - the gateway's `Search` does not catch transport or JSON errors.
