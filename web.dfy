/**
 * What the duster sees of the outside world: paths, bytes, the server's answers,
 * and the two string operations it applies to what the browser and the server
 * hand it (Python's `str.strip()` and `str.rsplit('/', 1)[1]`).
 */
module Web {
  import opened Wrappers

  /** A filesystem path as its segments (pathlib's `parts`); `p / name` is `p + [name]`. */
  type Path = seq<string>

  type Bytes = seq<bv8>

  /**
   * The server's answers for one URL: the Last-Modified header of the HEAD
   * request, already parsed to a timestamp (None when the header is absent),
   * and the final URL and the body of the GET request after redirects.
   */
  datatype Response = Response(lastModified: Option<int>, resolvedUrl: string, content: Bytes)

  /** The server, as the answers it gives per requested URL. */
  type Server = map<string, Response>

  /** Why downloading one link raises instead of returning a DLResult. */
  datatype Fault =
    | NoLastModified(url: string)          // `response.headers['last-modified']` raises KeyError
    | NoSlashInResolvedUrl(url: string)    // `result.url.rsplit('/', 1)[1]` raises IndexError

  /** `session.head(url).headers['last-modified']`, parsed; None when it raises. */
  function Head(server: Server, url: string): Option<int>
  {
    if url in server then server[url].lastModified else None
  }

  /** The characters for which Python's `str.isspace()` holds. */
  predicate IsSpace(c: char)
  {
    || c == ' ' || ('\t' <= c <= '\r') || ('\U{1C}' <= c <= '\U{1F}')
    || c == '\U{85}' || c == '\U{A0}' || c == '\U{1680}'
    || ('\U{2000}' <= c <= '\U{200A}') || c == '\U{2028}' || c == '\U{2029}'
    || c == '\U{202F}' || c == '\U{205F}' || c == '\U{3000}'
  }

  /** The number of leading whitespace characters of `s`. */
  function Lead(s: string): (n: nat)
    ensures n <= |s|
    ensures forall k :: 0 <= k < n ==> IsSpace(s[k])
    ensures n < |s| ==> !IsSpace(s[n])
  {
    if s == [] || !IsSpace(s[0]) then 0 else 1 + Lead(s[1..])
  }

  /** The number of trailing whitespace characters of `s`. */
  function Trail(s: string): (n: nat)
    ensures n <= |s|
    ensures forall k :: |s| - n <= k < |s| ==> IsSpace(s[k])
    ensures n < |s| ==> !IsSpace(s[|s| - 1 - n])
  {
    if s == [] || !IsSpace(s[|s| - 1]) then 0 else 1 + Trail(s[..|s| - 1])
  }

  /** Python's `s.strip()`: `s` without its leading and trailing whitespace. */
  function Strip(s: string): (r: string)
    ensures r == [] || (!IsSpace(r[0]) && !IsSpace(r[|r| - 1]))
    ensures Lead(s) + |r| <= |s| && r == s[Lead(s)..Lead(s) + |r|]
    ensures forall k :: Lead(s) + |r| <= k < |s| ==> IsSpace(s[k])
  {
    var t := s[Lead(s)..];
    t[..|t| - Trail(t)]
  }

  /**
   * `s.rsplit('/', 1)[1]`: the text after the last '/' of `s`, or None when
   * `s` holds no '/' (the split then has one part and indexing it raises).
   */
  function AfterLastSlash(s: string): (r: Option<string>)
    ensures r.None? <==> '/' !in s
    ensures r.Some? ==> |r.value| < |s| && s[|s| - |r.value| - 1] == '/'
    ensures r.Some? ==> s[|s| - |r.value|..] == r.value && '/' !in r.value
  {
    if s == [] then None
    else if s[|s| - 1] == '/' then Some([])
    else match AfterLastSlash(s[..|s| - 1])
      case None => None
      case Some(tail) => Some(tail + [s[|s| - 1]])
  }

  /**
   * The name a download is saved under (blackboard_duster.py line 410): the
   * percent-decoded text after the last '/' of the URL the GET ended on.
   * Percent-decoding is urllib's `unquote`, passed in as `unquote`.
   */
  function FileName(resolvedUrl: string, unquote: string -> string): (r: Result<string, Fault>)
    ensures r.Err? <==> '/' !in resolvedUrl
    ensures r.Err? ==> r.error == NoSlashInResolvedUrl(resolvedUrl)
    ensures r.Ok? ==> exists tail :: AfterLastSlash(resolvedUrl) == Some(tail) && r.value == unquote(tail)
  {
    match AfterLastSlash(resolvedUrl)
    case None => Err(NoSlashInResolvedUrl(resolvedUrl))
    case Some(tail) => Ok(unquote(tail))
  }
}
