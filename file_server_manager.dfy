/** The gateway's registry of file servers (`FileServerManager`): the server
    list it refreshes and probes, the lookup by id, and the translation of a
    node's HTTP answer into the envelope returned to the portal. HTTP is a
    given function from request to outcome; JSON decoding is a given function
    from body to value. */
module Gateway {
  import opened Common
  import opened Models

  datatype Verb = Get | Post

  /** An outgoing request: method, absolute URL, the `X-API-Key` header and,
      for a search, the JSON body. */
  datatype HttpRequest = HttpRequest(verb: Verb, url: string, apiKey: string, body: Option<FileSearchRequest>)

  /** What `HttpClient.SendAsync` gives: a success status with its body, any
      other status with its body, or an exception. */
  datatype HttpOutcome = Ok(body: string) | HttpError(body: string) | Fault

  const ServerNotFound: string := "Server not found"
  const CommunicationError: string := "Error communicating with file server"
  const SearchFailed: string := "Error performing search"

  /** The position of the first server with the given id. */
  function IndexOfServer(servers: seq<FileServer>, serverId: string): (r: Option<nat>)
    ensures r.Some? ==> r.value < |servers| && servers[r.value].id == serverId
    ensures r.Some? ==> forall k :: 0 <= k < r.value ==> servers[k].id != serverId
    ensures r.None? <==> forall k :: 0 <= k < |servers| ==> servers[k].id != serverId
  {
    if servers == [] then None
    else if servers[0].id == serverId then Some(0)
    else
      match IndexOfServer(servers[1..], serverId)
      case None => None
      case Some(k) => Some(k + 1)
  }

  /** `FirstOrDefault(s => s.Id == serverId)` on a list that is not null. */
  function FindServer(servers: seq<FileServer>, serverId: string): (r: Option<FileServer>)
    ensures r.Some? ==> r.value.id == serverId && r.value in servers
    ensures r.None? <==> forall s :: s in servers ==> s.id != serverId
  {
    match IndexOfServer(servers, serverId)
    case None => None
    case Some(k) => Some(servers[k])
  }

  /** With distinct ids, the server at position `i` is the one found by its
      id. */
  lemma FindServerUnique(servers: seq<FileServer>, i: nat)
    requires i < |servers|
    requires forall a, b :: 0 <= a < b < |servers| ==> servers[a].id != servers[b].id
    ensures FindServer(servers, servers[i].id) == Some(servers[i])
  {
  }

  /** The liveness probe of one server. */
  function HealthRequest(server: FileServer): HttpRequest {
    HttpRequest(Get, server.internalUrl + "/api/FileApi/health", server.apiKey, None)
  }

  /** `response.IsSuccessStatusCode`, false when the call throws. */
  function ProbeHealthy(transport: HttpRequest -> HttpOutcome, server: FileServer): (r: bool)
    ensures r <==> transport(HealthRequest(server)).Ok?
  {
    match transport(HealthRequest(server))
    case Ok(_) => true
    case HttpError(_) => false
    case Fault => false
  }

  /** The probe uses only the server's URL and key. */
  lemma ProbeIgnoresOtherFields(transport: HttpRequest -> HttpOutcome, a: FileServer, b: FileServer)
    requires a.internalUrl == b.internalUrl && a.apiKey == b.apiKey
    ensures ProbeHealthy(transport, a) == ProbeHealthy(transport, b)
  {
  }

  /** Entry `i` after the refresh: as configured, with `IsHealthy` set from
      the probe of the first server that has its id. */
  function RefreshedEntry(list: seq<FileServer>, transport: HttpRequest -> HttpOutcome, i: nat): FileServer
    requires i < |list|
  {
    list[i].(isHealthy := ProbeHealthy(transport, FindServer(list, list[i].id).value))
  }

  /** The list `GetServers` leaves behind. */
  function Refreshed(list: seq<FileServer>, transport: HttpRequest -> HttpOutcome): (r: seq<FileServer>)
    ensures |r| == |list|
    ensures forall i :: 0 <= i < |list| ==> r[i] == list[i].(isHealthy := r[i].isHealthy)
  {
    seq(|list|, i requires 0 <= i < |list| => RefreshedEntry(list, transport, i))
  }

  /** After a refresh the list keeps its order, ids and `LastChecked`
      values, and with distinct ids each server's flag is its own probe. */
  lemma RefreshedHealth(list: seq<FileServer>, transport: HttpRequest -> HttpOutcome)
    requires forall a, b :: 0 <= a < b < |list| ==> list[a].id != list[b].id
    ensures forall i :: 0 <= i < |list| ==>
      Refreshed(list, transport)[i].isHealthy == ProbeHealthy(transport, list[i]) &&
      Refreshed(list, transport)[i].id == list[i].id &&
      Refreshed(list, transport)[i].lastChecked == list[i].lastChecked
  {
    forall i | 0 <= i < |list| ensures Refreshed(list, transport)[i].isHealthy == ProbeHealthy(transport, list[i]) {
      FindServerUnique(list, i);
    }
  }

  /** Two entries that share an id share the probe of the first one. */
  lemma DuplicateIdsShareHealth(list: seq<FileServer>, transport: HttpRequest -> HttpOutcome, i: nat, j: nat)
    requires i < |list| && j < |list| && list[i].id == list[j].id
    ensures Refreshed(list, transport)[i].isHealthy == Refreshed(list, transport)[j].isHealthy
  {
  }

  /** Changing health flags keeps every id, URL and key, so the lookup
      finds a server with the same URL and key. */
  lemma FindServerIgnoresHealth(list: seq<FileServer>, updated: seq<FileServer>, serverId: string)
    requires |updated| == |list|
    requires forall k :: 0 <= k < |list| ==> updated[k] == list[k].(isHealthy := updated[k].isHealthy)
    ensures IndexOfServer(updated, serverId) == IndexOfServer(list, serverId)
  {
    if list != [] {
      FindServerIgnoresHealth(list[1..], updated[1..], serverId);
    }
  }

  /** The list while `GetServers` is at position `i`: the servers before it
      refreshed, the others as configured. */
  function PartlyRefreshed(list: seq<FileServer>, transport: HttpRequest -> HttpOutcome, i: nat): (r: seq<FileServer>)
    requires i <= |list|
    ensures |r| == |list|
    ensures forall k :: 0 <= k < |list| ==> r[k] == list[k].(isHealthy := r[k].isHealthy)
  {
    seq(|list|, k requires 0 <= k < |list| => if k < i then RefreshedEntry(list, transport, k) else list[k])
  }

  /** The partly refreshed list differs from the configured one only in
      health flags, so the lookup finds the same position. */
  lemma PartlyRefreshedLookup(list: seq<FileServer>, transport: HttpRequest -> HttpOutcome, i: nat, serverId: string)
    requires i <= |list|
    ensures IndexOfServer(PartlyRefreshed(list, transport, i), serverId) == IndexOfServer(list, serverId)
  {
    FindServerIgnoresHealth(list, PartlyRefreshed(list, transport, i), serverId);
  }

  /** One iteration of `GetServers`: updating position `i` of the partly
      refreshed list with the probe of the server found by its id advances
      the refresh by one. */
  lemma RefreshStep(list: seq<FileServer>, transport: HttpRequest -> HttpOutcome, i: nat)
    requires i < |list|
    ensures PartlyRefreshed(list, transport, i)[i] == list[i]
    ensures var cur := PartlyRefreshed(list, transport, i);
      IndexOfServer(cur, list[i].id).Some? &&
      cur[i := cur[i].(isHealthy := ProbeHealthy(transport, FindServer(cur, list[i].id).value))] ==
      PartlyRefreshed(list, transport, i + 1)
  {
    var cur := PartlyRefreshed(list, transport, i);
    PartlyRefreshedLookup(list, transport, i, list[i].id);
    var j := IndexOfServer(list, list[i].id).value;
    ProbeIgnoresOtherFields(transport, cur[j], list[j]);
    var next := cur[i := cur[i].(isHealthy := ProbeHealthy(transport, FindServer(cur, list[i].id).value))];
    assert next[i] == RefreshedEntry(list, transport, i);
    assert next == PartlyRefreshed(list, transport, i + 1);
  }

  /** The envelope `SendRequest` builds once the server is known. */
  function Envelope<T>(serverId: string, outcome: HttpOutcome, decode: string -> Outcome<Option<T>>): (r: FileServerResponse<T>)
    ensures r.serverId == serverId
    ensures r.success <==> outcome.Ok? && decode(outcome.body).Returned?
    ensures r.success ==> r.data == decode(outcome.body).value && r.errorMessage.None?
    ensures outcome.HttpError? ==> r.errorMessage == Some(outcome.body)
    ensures outcome.Fault? || (outcome.Ok? && decode(outcome.body).Threw?) ==> r.errorMessage == Some(CommunicationError)
    ensures !r.success ==> r.data.None?
  {
    match outcome
    case Ok(body) =>
      (match decode(body)
       case Returned(data) => FileServerResponse(true, data, None, serverId)
       case Threw(_) => FileServerResponse(false, None, Some(CommunicationError), serverId))
    case HttpError(body) => FileServerResponse(false, None, Some(body), serverId)
    case Fault => FileServerResponse(false, None, Some(CommunicationError), serverId)
  }

  /** The registry. `servers` is the static `_servers` list, None while it is
      still null; `configured` is the `FileServers` configuration section
      (None when absent) and `transport` the HTTP client. */
  class FileServerManager {
    var servers: Option<seq<FileServer>>
    const configured: Option<seq<FileServer>>
    const transport: HttpRequest -> HttpOutcome

    constructor (configured: Option<seq<FileServer>>, transport: HttpRequest -> HttpOutcome)
      ensures this.servers == None
      ensures this.configured == configured && this.transport == transport
    {
      this.servers := None;
      this.configured := configured;
      this.transport := transport;
    }

    /** `GetServerById`: enumerating a null list throws. */
    function GetServerById(serverId: string): (r: Outcome<Option<FileServer>>)
      reads this
      ensures servers.None? <==> r == Threw(ArgumentNullError("source"))
      ensures r.Returned? && r.value.Some? ==> r.value.value.id == serverId && r.value.value in servers.value
      ensures r.Returned? && r.value.None? ==> forall s :: s in servers.value ==> s.id != serverId
      ensures r.Returned? && r.value.Some? ==>
        exists i :: (0 <= i < |servers.value| && servers.value[i] == r.value.value &&
                     forall k :: 0 <= k < i ==> servers.value[k].id != serverId)
    {
      match servers
      case None => Threw(ArgumentNullError("source"))
      case Some(list) => Returned(FindServer(list, serverId))
    }

    /** `CheckServerHealth`. The lookup is outside the `try`. */
    function CheckServerHealth(serverId: string): (r: Outcome<bool>)
      reads this
      ensures servers.None? ==> r.Threw?
      ensures servers.Some? && FindServer(servers.value, serverId).None? ==> r == Returned(false)
      ensures servers.Some? && FindServer(servers.value, serverId).Some? ==>
        r == Returned(transport(HealthRequest(FindServer(servers.value, serverId).value)).Ok?)
    {
      match GetServerById(serverId)
      case Threw(e) => Threw(e)
      case Returned(None) => Returned(false)
      case Returned(Some(server)) => Returned(ProbeHealthy(transport, server))
    }

    /** `GetServers`: installs the configured list (or an empty one) and sets
        each server's health flag from its probe, one server after another. */
    method GetServers() returns (r: seq<FileServer>)
      modifies this
      ensures servers == Some(Refreshed(configured.GetOr([]), transport))
      ensures r == servers.value
    {
      var list := configured.GetOr([]);
      servers := Some(list);
      assert PartlyRefreshed(list, transport, 0) == list;
      var i := 0;
      while i < |list|
        invariant 0 <= i <= |list|
        invariant servers == Some(PartlyRefreshed(list, transport, i))
      {
        RefreshStep(list, transport, i);
        var healthy := CheckServerHealth(servers.value[i].id);
        servers := Some(servers.value[i := servers.value[i].(isHealthy := healthy.value)]);
        i := i + 1;
      }
      assert PartlyRefreshed(list, transport, i) == Refreshed(list, transport);
      r := servers.value;
    }

    /** `SendRequest<T>`: GET `{InternalUrl}/{relativePath}`. The lookup is
        outside the `try`; everything after it is caught. */
    function SendRequest<T>(serverId: string, relativePath: string, decode: string -> Outcome<Option<T>>): (r: Outcome<FileServerResponse<T>>)
      reads this
      ensures servers.None? <==> r.Threw?
      ensures r.Returned? ==> r.value.serverId == serverId
      ensures servers.Some? && FindServer(servers.value, serverId).None? ==>
        r == Returned(FileServerResponse(false, None, Some(ServerNotFound), serverId))
      ensures servers.Some? && FindServer(servers.value, serverId).Some? ==>
        var server := FindServer(servers.value, serverId).value;
        r == Returned(Envelope(serverId, transport(HttpRequest(Get, server.internalUrl + "/" + relativePath, server.apiKey, None)), decode))
    {
      match GetServerById(serverId)
      case Threw(e) => Threw(e)
      case Returned(None) => Returned(FileServerResponse(false, None, Some(ServerNotFound), serverId))
      case Returned(Some(server)) =>
        var request := HttpRequest(Get, server.internalUrl + "/" + relativePath, server.apiKey, None);
        Returned(Envelope(serverId, transport(request), decode))
    }

    function GetRootDirectories(serverId: string, decode: string -> Outcome<Option<seq<RootDirectory>>>): (r: Outcome<FileServerResponse<seq<RootDirectory>>>)
      reads this
      ensures r == SendRequest(serverId, "api/FileApi/roots", decode)
    {
      SendRequest(serverId, "api/FileApi/roots", decode)
    }

    /** `Browse`: a null path is sent as the empty string. */
    function Browse(serverId: string, rootName: string, path: Option<string>, escape: string -> string, decode: string -> Outcome<Option<seq<FileItem>>>): (r: Outcome<FileServerResponse<seq<FileItem>>>)
      reads this
      ensures r == SendRequest(serverId, BrowseQuery(rootName, path.GetOr([]), escape), decode)
    {
      SendRequest(serverId, BrowseQuery(rootName, path.GetOr([]), escape), decode)
    }

    /** `GetFileContents`: a null path reaches `Uri.EscapeDataString`, which
        throws before the request is sent. */
    function GetFileContents(serverId: string, rootName: string, path: Option<string>, escape: string -> string, decode: string -> Outcome<Option<FileReadResult>>): (r: Outcome<FileServerResponse<FileReadResult>>)
      reads this
      ensures path.None? ==> r == Threw(ArgumentNullError("stringToEscape"))
      ensures path.Some? ==> r == SendRequest(serverId, FileQuery(rootName, path.value, escape), decode)
    {
      match path
      case None => Threw(ArgumentNullError("stringToEscape"))
      case Some(p) => SendRequest(serverId, FileQuery(rootName, p, escape), decode)
    }

    /** `Search`: POST the request to `{InternalUrl}/api/FileApi/search`.
        There is no `try`: a failed call or an unreadable body propagates, and
        a body of JSON `null` is returned as null. */
    function Search(request: FileSearchRequest, decode: string -> Outcome<Option<FileSearchResponse>>): (r: Outcome<Option<FileSearchResponse>>)
      reads this
      ensures servers.None? ==> r == Threw(ArgumentNullError("source"))
      ensures servers.Some? && FindServer(servers.value, request.serverId).None? ==>
        r == Returned(Some(FileSearchResponse(false, Some(ServerNotFound), Some([]))))
      ensures servers.Some? && FindServer(servers.value, request.serverId).Some? ==>
        var outcome := transport(SearchRequest(FindServer(servers.value, request.serverId).value, request));
        && (outcome.Fault? ==> r == Threw(HttpRequestError))
        && (outcome.HttpError? ==> r == Returned(Some(FileSearchResponse(false, Some(SearchFailed), Some([])))))
        && (outcome.Ok? ==> r == decode(outcome.body))
    {
      match GetServerById(request.serverId)
      case Threw(e) => Threw(e)
      case Returned(None) => Returned(Some(FileSearchResponse(false, Some(ServerNotFound), Some([]))))
      case Returned(Some(server)) =>
        (match transport(SearchRequest(server, request))
         case Fault => Threw(HttpRequestError)
         case HttpError(_) => Returned(Some(FileSearchResponse(false, Some(SearchFailed), Some([]))))
         case Ok(body) => decode(body))
    }
  }

  function SearchRequest(server: FileServer, request: FileSearchRequest): HttpRequest {
    HttpRequest(Post, server.internalUrl + "/api/FileApi/search", server.apiKey, Some(request))
  }

  function BrowseQuery(rootName: string, path: string, escape: string -> string): string {
    "api/FileApi/browse?rootName=" + escape(rootName) + "&path=" + escape(path)
  }

  function FileQuery(rootName: string, path: string, escape: string -> string): string {
    "api/FileApi/file?rootName=" + escape(rootName) + "&path=" + escape(path)
  }

  /** After `GetServers`, every server's flag is what `CheckServerHealth`
      would answer for its id at that moment. */
  lemma RefreshedAgreesWithCheck(m: FileServerManager, list: seq<FileServer>)
    requires m.servers == Some(Refreshed(list, m.transport))
    ensures forall i :: 0 <= i < |list| ==>
      m.CheckServerHealth(list[i].id) == Returned(m.servers.value[i].isHealthy)
  {
    var done := Refreshed(list, m.transport);
    assert PartlyRefreshed(list, m.transport, |list|) == done;
    forall i | 0 <= i < |list| ensures m.CheckServerHealth(list[i].id) == Returned(done[i].isHealthy) {
      PartlyRefreshedLookup(list, m.transport, |list|, list[i].id);
      var j := IndexOfServer(list, list[i].id).value;
      ProbeIgnoresOtherFields(m.transport, done[j], list[j]);
    }
  }

  /** `Browse` sends a null path as the empty one, while `GetFileContents`
      throws on it before any request. */
  lemma NullPathHandling(m: FileServerManager, serverId: string, rootName: string, escape: string -> string,
                         decodeItems: string -> Outcome<Option<seq<FileItem>>>, decodeFile: string -> Outcome<Option<FileReadResult>>)
    ensures m.Browse(serverId, rootName, None, escape, decodeItems) == m.Browse(serverId, rootName, Some([]), escape, decodeItems)
    ensures m.GetFileContents(serverId, rootName, None, escape, decodeFile).Threw?
    ensures m.servers.Some? ==> m.GetFileContents(serverId, rootName, Some([]), escape, decodeFile).Returned?
  {
  }
}
