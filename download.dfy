/**
 * The download proxy: `GET /download?file_url=...` fetches the URL and sends
 * the body back as an attachment, or maps the failure to an HTTP error.
 * The fetch itself is an input: its outcome is a transport failure, another
 * failure the handler does not catch (an unparsable URL), or the upstream
 * response's status, `Content-Type` header, body and text.
 */
module Download {
  import opened Wrappers
  import PyStr

  newtype byte = x: int | 0 <= x < 256

  /** What the upstream server sent back. `contentType` is the header lookup. */
  datatype UpstreamResponse = UpstreamResponse(
    statusCode: int,
    contentType: Option<string>,
    content: seq<byte>,
    text: string)

  /** How the GET on the URL ended. */
  datatype FetchOutcome =
    | RequestError(cause: string)   // DNS, connection, timeout: no response at all
    | Uncaught(cause: string)       // raised before any request, such as an invalid URL
    | Received(response: UpstreamResponse)

  /** The response the proxy sends to its client. */
  datatype FileResponse = FileResponse(
    statusCode: int,
    mediaType: string,
    headers: map<string, string>,
    content: seq<byte>)

  const DefaultContentType: string := "application/octet-stream"
  const DispositionPrefix: string := "attachment; filename=\""
  const ErrorPrefix: string := "Error downloading file: "

  /** What the server sends for an exception no handler clause catches. */
  const InternalServerError: HttpError := HttpError(500, "Internal Server Error")

  /** Every character can be encoded as Latin-1, as response header values must be. */
  predicate IsLatin1(s: string)
  {
    forall i :: 0 <= i < |s| ==> s[i] as int < 256
  }

  /** `raise_for_status` lets a response through only when its status is 2xx. */
  predicate IsSuccess(statusCode: int)
  {
    200 <= statusCode < 300
  }

  /**
   * `file_url.split("/")[-1]`: the longest suffix of the URL without a
   * slash. It is the whole URL when there is no slash and empty when the URL
   * ends in one.
   */
  function FileName(fileUrl: string): (name: string)
    ensures '/' !in name
    ensures |name| <= |fileUrl| && fileUrl[|fileUrl| - |name|..] == name
    ensures |name| < |fileUrl| ==> fileUrl[|fileUrl| - |name| - 1] == '/'
  {
    var parts := PyStr.Split(fileUrl, '/');
    PyStr.SplitLast(fileUrl, '/');
    parts[|parts| - 1]
  }

  /** `headers.get("Content-Type", "application/octet-stream")`. */
  function ContentType(upstream: UpstreamResponse): (t: string)
    ensures upstream.contentType.Some? ==> t == upstream.contentType.value
    ensures upstream.contentType.None? ==> t == DefaultContentType
  {
    match upstream.contentType
    case Some(t) => t
    case None => DefaultContentType
  }

  /** The `Content-Disposition` value: `attachment; filename="<name>"`. */
  function ContentDisposition(filename: string): (h: string)
    ensures |h| == |DispositionPrefix| + |filename| + 1
    ensures DispositionFileName(h) == Some(filename)
  {
    DispositionPrefix + filename + "\""
  }

  /** Reads the file name back out of a `Content-Disposition` value. */
  function DispositionFileName(h: string): Option<string>
  {
    if |h| > |DispositionPrefix| && h[..|DispositionPrefix|] == DispositionPrefix && h[|h| - 1] == '"'
    then Some(h[|DispositionPrefix|..|h| - 1])
    else None
  }

  /**
   * Building the response encodes its header values as Latin-1; a file name
   * or content type outside Latin-1 raises there, inside the `try` but past
   * both of its `except` clauses.
   */
  predicate HeadersEncodable(fileUrl: string, upstream: UpstreamResponse)
  {
    IsLatin1(ContentDisposition(FileName(fileUrl))) && IsLatin1(ContentType(upstream))
  }

  /** What the handler does with the outcome of its one fetch. */
  function FrameDownload(fileUrl: string, outcome: FetchOutcome): (r: Result<FileResponse, HttpError>)
    ensures outcome.RequestError? ==> r == Failure(HttpError(500, ErrorPrefix + outcome.cause))
    ensures outcome.Uncaught? ==> r == Failure(InternalServerError)
    ensures outcome.Received? && !IsSuccess(outcome.response.statusCode) ==>
      r == Failure(HttpError(outcome.response.statusCode, ErrorPrefix + outcome.response.text))
    ensures (outcome.Received? && IsSuccess(outcome.response.statusCode)
             && !(IsLatin1(FileName(fileUrl)) && IsLatin1(ContentType(outcome.response)))) ==>
      r == Failure(InternalServerError)
    ensures (outcome.Received? && IsSuccess(outcome.response.statusCode)
             && IsLatin1(FileName(fileUrl)) && IsLatin1(ContentType(outcome.response))) ==>
      && r.Success?
      && r.value.statusCode == 200
      && r.value.content == outcome.response.content
      && r.value.mediaType == ContentType(outcome.response)
      && r.value.headers.Keys == {"Content-Disposition"}
      && DispositionFileName(r.value.headers["Content-Disposition"]) == Some(FileName(fileUrl))
  {
    match outcome
    case RequestError(cause) => Failure(HttpError(500, ErrorPrefix + cause))
    case Uncaught(_) => Failure(InternalServerError)
    case Received(upstream) =>
      DispositionLatin1(FileName(fileUrl));
      if !IsSuccess(upstream.statusCode) then
        Failure(HttpError(upstream.statusCode, ErrorPrefix + upstream.text))
      else if !HeadersEncodable(fileUrl, upstream) then
        Failure(InternalServerError)
      else
        var headers := map["Content-Disposition" := ContentDisposition(FileName(fileUrl))];
        Success(FileResponse(200, ContentType(upstream), headers, upstream.content))
  }

  /** The disposition header is encodable exactly when the file name is. */
  lemma DispositionLatin1(filename: string)
    ensures IsLatin1(ContentDisposition(filename)) <==> IsLatin1(filename)
  {
    var h := ContentDisposition(filename);
    var n := |DispositionPrefix|;
    if IsLatin1(h) {
      forall i | 0 <= i < |filename| ensures filename[i] as int < 256 {
        assert filename[i] == h[n + i];
      }
    }
  }

  /**
   * `download_file`: one fetch of the URL as given, then the framing above.
   * There is no check on the URL: whatever the URL, the handler succeeds
   * exactly when the fetch returned a 2xx response and the file name and
   * content type can go into headers; an upstream error status reaches the
   * client unchanged.
   */
  function DownloadFile(fileUrl: string, fetch: string -> FetchOutcome): (r: Result<FileResponse, HttpError>)
    ensures r.Success? <==>
      && fetch(fileUrl).Received?
      && IsSuccess(fetch(fileUrl).response.statusCode)
      && IsLatin1(FileName(fileUrl))
      && IsLatin1(ContentType(fetch(fileUrl).response))
    ensures fetch(fileUrl).RequestError? || fetch(fileUrl).Uncaught? ==> r.error.statusCode == 500
    ensures fetch(fileUrl).Received? && !IsSuccess(fetch(fileUrl).response.statusCode) ==>
      r.error.statusCode == fetch(fileUrl).response.statusCode
    ensures r.Success? ==> r.value.content == fetch(fileUrl).response.content
  {
    FrameDownload(fileUrl, fetch(fileUrl))
  }

  /** A file name outside Latin-1 turns a 200 upstream into a bare 500. */
  lemma CyrillicFileNameFails(fetch: string -> FetchOutcome)
    requires fetch("https://h/\U{43a}.pdf") == Received(UpstreamResponse(200, None, [], ""))
    ensures DownloadFile("https://h/\U{43a}.pdf", fetch) == Failure(InternalServerError)
  {
    var url := "https://h/\U{43a}.pdf";
    FileNameUnique(url, "\U{43a}.pdf");
    assert !IsLatin1(FileName(url)) by {
      assert FileName(url)[0] == '\U{43a}';
    }
  }

  /**
   * The file name is determined by its three properties: any slash-free
   * suffix that is the whole URL or follows a slash is the file name.
   */
  lemma FileNameUnique(fileUrl: string, name: string)
    requires '/' !in name
    requires |name| <= |fileUrl| && fileUrl[|fileUrl| - |name|..] == name
    requires |name| < |fileUrl| ==> fileUrl[|fileUrl| - |name| - 1] == '/'
    ensures name == FileName(fileUrl)
  {
  }

  /** A URL without a slash is its own file name. */
  lemma FileNameWithoutSlash(fileUrl: string)
    requires '/' !in fileUrl
    ensures FileName(fileUrl) == fileUrl
  {
  }

  /** A URL ending in a slash has an empty file name, so the header says `filename=""`. */
  lemma FileNameAfterTrailingSlash(fileUrl: string)
    requires |fileUrl| > 0 && fileUrl[|fileUrl| - 1] == '/'
    ensures FileName(fileUrl) == ""
    ensures ContentDisposition(FileName(fileUrl)) == "attachment; filename=\"\""
  {
  }

  /** A typical mirror link keeps its last path segment as the file name. */
  lemma MirrorLinkFileName()
    ensures FileName("https://download.library.gift/main/123/abc123/book.pdf") == "book.pdf"
  {
    var url := "https://download.library.gift/main/123/abc123/book.pdf";
    FileNameUnique(url, "book.pdf");
  }
}
