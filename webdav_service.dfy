/** The WebDAV backup of the card database: the path and URL arithmetic,
    the classification of response statuses, and the order of the steps of an
    upload or a download. The network is a `Transport`, a function from a
    request to the response the server gives; the local database is a
    `LocalDb`, reduced to what its export gives and whether it imports a script. */
module WebDav {
  import opened Rows

  const SqlSuffix: string := ".sql"
  const DirMarker: string := "/.dir"
  const DefaultContentType: string := "text/plain"
  const DirContentType: string := "application/octet-stream"

  datatype Request = Put(url: string, contentType: string, body: string) | Get(url: string)

  /** `onload` with a status and a response text, `onerror`, or `ontimeout`. */
  datatype Response = Loaded(status: int, text: string) | NetworkError | TimedOut

  type Transport = Request -> Response

  /** What the caller of an upload or download sees thrown. The messages
      '上传失败' and '下载失败' carry no status. */
  datatype Failure = UploadFailed | DownloadFailed | WebPlatformUnsupported | ExportFailed | ImportFailed

  datatype Outcome = Pass | Fail(error: Failure)

  datatype Fetched = Fetched(text: string) | NotFetched(error: Failure)

  /** The local database as the sync sees it: the script `exportToSQL` gives
      (`None` when it throws) and whether `importFromSQL` accepts a script. */
  datatype LocalDb = LocalDb(exported: Option<string>, accepts: string -> bool)

  /** One observable step of a database upload or download, in order. */
  datatype Step = Send(request: Request) | OpenDb | ExportDb | ImportDb(script: string) | CloseDb

  predicate EndsWith(s: string, suffix: string) {
    |suffix| <= |s| && s[|s| - |suffix|..] == suffix
  }

  /** `remotePath.endsWith('.sql') ? remotePath : remotePath + '.sql'`. */
  function FormatSqlPath(path: string): (r: string)
    ensures EndsWith(r, SqlSuffix)
    ensures EndsWith(path, SqlSuffix) ==> r == path
    ensures !EndsWith(path, SqlSuffix) ==> r == path + SqlSuffix
    ensures |path| <= |r| <= |path| + |SqlSuffix| && r[..|path|] == path
  {
    if EndsWith(path, SqlSuffix) then path
    else
      var r := path + SqlSuffix;
      assert r[|r| - |SqlSuffix|..] == SqlSuffix;
      r
  }

  /** Formatting a formatted path changes nothing. */
  lemma FormatSqlPathIdempotent(path: string)
    ensures FormatSqlPath(FormatSqlPath(path)) == FormatSqlPath(path)
  {
  }

  /** The path with one leading '/' removed, if it has one. */
  function WithoutLeadingSlash(path: string): (r: string)
    ensures |path| > 0 && path[0] == '/' ==> path == "/" + r
    ensures !(|path| > 0 && path[0] == '/') ==> r == path
  {
    if |path| > 0 && path[0] == '/' then path[1..] else path
  }

  /** `CONFIG.WEBDAV_SERVER_URL` followed by the path without its leading '/'. */
  function AbsoluteUrl(serverUrl: string, path: string): (r: string)
    ensures |serverUrl| <= |r| && r[..|serverUrl|] == serverUrl
    ensures var rest := r[|serverUrl|..];
      (|path| > 0 && path[0] == '/' ==> path == "/" + rest) && (!(|path| > 0 && path[0] == '/') ==> path == rest)
  {
    serverUrl + WithoutLeadingSlash(path)
  }

  /** `lastIndexOf(c)`: the position of the last `c` in `s`, or -1. */
  function LastIndexOf(s: string, c: char): (k: int)
    ensures -1 <= k < |s|
    ensures k >= 0 ==> s[k] == c
    ensures forall j :: k < j < |s| ==> s[j] != c
  {
    if s == [] then -1
    else if s[|s| - 1] == c then |s| - 1
    else LastIndexOf(s[..|s| - 1], c)
  }

  /** The directory `ensureDirectoryExists` creates for a file path: none when
      the path has no '/' or only a leading one, else the prefix before the last '/'. */
  function DirectoryOf(filePath: string): (r: Option<string>)
    ensures r.Some? ==> 0 < |r.value| < |filePath| && filePath[..|r.value|] == r.value && filePath[|r.value|] == '/'
  {
    var k := LastIndexOf(filePath, '/');
    if k <= 0 then None else Some(filePath[..k])
  }

  /** The URL of the empty marker file that stands for the directory. */
  function DirMarkerUrl(serverUrl: string, dir: string): (r: string)
    ensures |serverUrl| + |DirMarker| <= |r| && r[..|serverUrl|] == serverUrl && EndsWith(r, DirMarker)
    ensures AbsoluteUrl(serverUrl, dir) + DirMarker == r
  {
    serverUrl + WithoutLeadingSlash(dir) + DirMarker
  }

  /** No directory is made exactly when the path has no '/' after position 0;
      otherwise the directory is a non-empty prefix ending just before the
      path's last '/'. */
  lemma DirectoryOfMeaning(filePath: string)
    ensures DirectoryOf(filePath).None? <==> forall j :: 0 < j < |filePath| ==> filePath[j] != '/'
    ensures DirectoryOf(filePath).Some? ==>
      var dir := DirectoryOf(filePath).value;
      && 0 < |dir| < |filePath|
      && filePath[..|dir|] == dir
      && filePath[|dir|] == '/'
      && forall j :: |dir| < j < |filePath| ==> filePath[j] != '/'
  {
  }

  /** The requests `ensureDirectoryExists` sends for a file path. */
  function DirectoryRequests(serverUrl: string, filePath: string): seq<Request> {
    match DirectoryOf(filePath)
    case None => []
    case Some(dir) => [Put(DirMarkerUrl(serverUrl, dir), DirContentType, "")]
  }

  /** An upload or download status that counts as success. */
  predicate IsSuccess(status: int) {
    200 <= status < 300
  }

  /** A directory-marker status that counts as success: 2xx, or 409 (exists). */
  predicate DirectoryAccepted(status: int) {
    (200 <= status < 300) || status == 201 || status == 409
  }

  /** The marker accepts exactly what an upload accepts, plus 409. */
  lemma DirectoryAcceptedMeaning(status: int)
    ensures DirectoryAccepted(status) <==> IsSuccess(status) || status == 409
    ensures IsSuccess(status) ==> DirectoryAccepted(status)
  {
  }

  function Sends(requests: seq<Request>): (steps: seq<Step>)
    ensures |steps| == |requests|
    ensures forall i :: 0 <= i < |requests| ==> steps[i] == Send(requests[i])
  {
    if requests == [] then [] else [Send(requests[0])] + Sends(requests[1..])
  }

  /** `ensureDirectoryExists`: PUT an empty marker into the parent directory.
      Whatever the server answers, the failure is logged and swallowed;
      `accepted` is what would be logged. */
  method EnsureDirectoryExists(server: Transport, serverUrl: string, filePath: string)
    returns (sent: seq<Request>, accepted: bool)
    ensures sent == DirectoryRequests(serverUrl, filePath)
    ensures |sent| <= 1
    ensures accepted <==> |sent| == 1 && server(sent[0]).Loaded? && DirectoryAccepted(server(sent[0]).status)
  {
    var dir := DirectoryOf(filePath);
    if dir.None? {
      return [], false;
    }
    var request := Put(DirMarkerUrl(serverUrl, dir.value), DirContentType, "");
    var response := server(request);
    sent := [request];
    accepted := response.Loaded? && DirectoryAccepted(response.status);
  }

  /** `uploadFileToWebDAV`: make the directory, then PUT the content; any
      status outside [200, 300), network error or timeout becomes '上传失败'. */
  method UploadFile(server: Transport, serverUrl: string, content: string, remotePath: string,
                    contentType: string := DefaultContentType)
    returns (sent: seq<Request>, r: Outcome)
    ensures var put := Put(AbsoluteUrl(serverUrl, remotePath), contentType, content);
      && sent == DirectoryRequests(serverUrl, remotePath) + [put]
      && (r == Pass <==> server(put).Loaded? && IsSuccess(server(put).status))
      && (r != Pass ==> r == Fail(UploadFailed))
  {
    var absoluteUrl := AbsoluteUrl(serverUrl, remotePath);
    var dirSent, _ := EnsureDirectoryExists(server, serverUrl, remotePath);
    var put := Put(absoluteUrl, contentType, content);
    var response := server(put);
    sent := dirSent + [put];
    if response.Loaded? && IsSuccess(response.status) {
      r := Pass;
    } else {
      r := Fail(UploadFailed);
    }
  }

  /** `downloadFileFromWebDAV`: GET the path; it succeeds only on a status in
      [200, 300) with a non-empty body, anything else becomes '下载失败'. */
  method DownloadFile(server: Transport, serverUrl: string, remotePath: string)
    returns (sent: seq<Request>, r: Fetched)
    ensures var get := Get(AbsoluteUrl(serverUrl, remotePath));
      && sent == [get]
      && (r.Fetched? <==> server(get).Loaded? && IsSuccess(server(get).status) && server(get).text != "")
      && (r.Fetched? ==> r.text == server(get).text)
      && (r.NotFetched? ==> r.error == DownloadFailed)
  {
    var get := Get(AbsoluteUrl(serverUrl, remotePath));
    var response := server(get);
    sent := [get];
    if response.Loaded? && IsSuccess(response.status) && response.text != "" {
      r := Fetched(response.text);
    } else {
      r := NotFetched(DownloadFailed);
    }
  }

  /** `uploadDatabaseToWebDAV`: force the '.sql' suffix, refuse the web
      platform, open the database, export it, upload the script as
      'text/plain', and close the database only after a successful upload. */
  method UploadDatabase(platformIsWeb: bool, local: LocalDb, server: Transport, serverUrl: string, remotePath: string)
    returns (steps: seq<Step>, r: Outcome)
    ensures platformIsWeb ==> steps == [] && r == Fail(WebPlatformUnsupported)
    ensures !platformIsWeb && local.exported.None? ==> steps == [OpenDb, ExportDb] && r == Fail(ExportFailed)
    ensures !platformIsWeb && local.exported.Some? ==>
      var path := FormatSqlPath(remotePath);
      var put := Put(AbsoluteUrl(serverUrl, path), DefaultContentType, local.exported.value);
      var uploaded := server(put).Loaded? && IsSuccess(server(put).status);
      && steps == [OpenDb, ExportDb] + Sends(DirectoryRequests(serverUrl, path) + [put]) + (if uploaded then [CloseDb] else [])
      && r == (if uploaded then Pass else Fail(UploadFailed))
  {
    var path := FormatSqlPath(remotePath);
    if platformIsWeb {
      return [], Fail(WebPlatformUnsupported);
    }
    steps := [OpenDb, ExportDb];
    if local.exported.None? {
      return steps, Fail(ExportFailed);
    }
    var sent, uploaded := UploadFile(server, serverUrl, local.exported.value, path, DefaultContentType);
    steps := steps + Sends(sent);
    if uploaded.Fail? {
      return steps, uploaded;
    }
    steps := steps + [CloseDb];
    r := Pass;
  }

  /** `downloadDatabaseFromWebDAV`: force the '.sql' suffix, refuse the web
      platform, download the script, and only then open the database and
      import it; the database is closed only after a successful import. */
  method DownloadDatabase(platformIsWeb: bool, local: LocalDb, server: Transport, serverUrl: string, remotePath: string)
    returns (steps: seq<Step>, r: Outcome)
    ensures platformIsWeb ==> steps == [] && r == Fail(WebPlatformUnsupported)
    ensures !platformIsWeb ==>
      var get := Get(AbsoluteUrl(serverUrl, FormatSqlPath(remotePath)));
      var response := server(get);
      if !(response.Loaded? && IsSuccess(response.status) && response.text != "") then
        steps == [Send(get)] && r == Fail(DownloadFailed)
      else if local.accepts(response.text) then
        steps == [Send(get), OpenDb, ImportDb(response.text), CloseDb] && r == Pass
      else
        steps == [Send(get), OpenDb, ImportDb(response.text)] && r == Fail(ImportFailed)
  {
    var path := FormatSqlPath(remotePath);
    if platformIsWeb {
      return [], Fail(WebPlatformUnsupported);
    }
    var get := Get(AbsoluteUrl(serverUrl, path));
    var sent, fetched := DownloadFile(server, serverUrl, path);
    steps := [Send(get)];
    if fetched.NotFetched? {
      return steps, Fail(fetched.error);
    }
    steps := steps + [OpenDb, ImportDb(fetched.text)];
    if !local.accepts(fetched.text) {
      return steps, Fail(ImportFailed);
    }
    steps := steps + [CloseDb];
    r := Pass;
  }
}
