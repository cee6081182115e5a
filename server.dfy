/**
 * The decision logic of the standalone static server: picking a free port by
 * probing a window of ports, mapping a request path to a file and a MIME type,
 * and choosing the response from what the file system reports. Probing a port
 * and the file system are left abstract as parameters.
 */
module StaticServer {
  import opened Common

  const DefaultPort: int := 3000

  /** The scan probes `start` through `start + ScanWidth`, both included. */
  const ScanWidth: int := 100

  /** The first port in `[p, last]` the oracle reports available, probing upwards. */
  function FirstAvailable(p: int, last: int, available: int -> bool): Option<int>
    decreases last - p
  {
    if p > last then None
    else if available(p) then Some(p)
    else FirstAvailable(p + 1, last, available)
  }

  /** `FirstAvailable` is the least available port of the window, or there is none. */
  lemma {:induction false} FirstAvailableSpec(p: int, last: int, available: int -> bool)
    ensures var r := FirstAvailable(p, last, available);
            && (r.Some? ==> p <= r.value <= last && available(r.value)
                            && forall q :: p <= q < r.value ==> !available(q))
            && (r.None? <==> forall q :: p <= q <= last ==> !available(q))
    decreases last - p
  {
    if p <= last && !available(p) {
      FirstAvailableSpec(p + 1, last, available);
      var r := FirstAvailable(p + 1, last, available);
      if r.Some? {
        forall q | p <= q < r.value ensures !available(q) {
          if q > p { assert p + 1 <= q < r.value; }
        }
      } else {
        forall q | p <= q <= last ensures !available(q) {
          if q > p { assert p + 1 <= q <= last; }
        }
      }
    }
  }

  /**
   * `findAvailablePort(start)`: probe `start`, `start + 1`, … up to `start + 100`
   * and return the first available one; `None` is the "No available port found"
   * error.
   */
  method FindAvailablePort(start: int, available: int -> bool) returns (r: Option<int>)
    ensures r == FirstAvailable(start, start + ScanWidth, available)
    ensures r.Some? ==> start <= r.value <= start + ScanWidth && available(r.value)
    ensures r.Some? ==> forall q :: start <= q < r.value ==> !available(q)
    ensures r.None? <==> forall q :: start <= q <= start + ScanWidth ==> !available(q)
  {
    FirstAvailableSpec(start, start + ScanWidth, available);
    for port := start to start + ScanWidth + 1
      invariant FirstAvailable(port, start + ScanWidth, available)
             == FirstAvailable(start, start + ScanWidth, available)
    {
      if available(port) {
        return Some(port);
      }
    }
    return None;
  }

  /**
   * The port the `EADDRINUSE` handler ends up listening on, as written: the port
   * is incremented, but the restart scans again from the default port, so the
   * increment is overwritten.
   */
  function RetryPortAsWritten(failed: int, available: int -> bool): Option<int> {
    FirstAvailable(DefaultPort, DefaultPort + ScanWidth, available)
  }

  /** The retry as written does not depend on which port failed. */
  lemma RetryAsWrittenIgnoresFailedPort(failed: int, available: int -> bool)
    ensures RetryPortAsWritten(failed, available) == RetryPortAsWritten(DefaultPort, available)
  {
  }

  /**
   * When the probe of the default port succeeds but listening on it fails (the port
   * was taken in between), the retry as written picks that same port again.
   */
  lemma RetryAsWrittenRepeatsFailedPort()
    ensures RetryPortAsWritten(DefaultPort, (p: int) => true) == Some(DefaultPort)
  {
  }

  /** The intended retry: scan the window that starts at the next port. */
  function RetryPort(failed: int, available: int -> bool): Option<int> {
    FirstAvailable(failed + 1, failed + 1 + ScanWidth, available)
  }

  /** The intended retry never picks the failed port or one below it. */
  lemma RetryMovesPastFailedPort(failed: int, available: int -> bool)
    ensures var r := RetryPort(failed, available);
            && (r.Some? ==> failed < r.value <= failed + 1 + ScanWidth && available(r.value)
                            && forall q :: failed < q < r.value ==> !available(q))
            && (r.None? <==> forall q :: failed < q <= failed + 1 + ScanWidth ==> !available(q))
  {
    FirstAvailableSpec(failed + 1, failed + 1 + ScanWidth, available);
  }

  /** With every port free, the intended retry moves to the very next port. */
  lemma RetryPicksNextPort()
    ensures RetryPort(DefaultPort, (p: int) => true) == Some(DefaultPort + 1)
  {
  }

  /** The server's module-level `PORT`. */
  class Server {
    var port: int

    constructor()
      ensures port == DefaultPort
    {
      port := DefaultPort;
    }

    /**
     * Start listening on the first available port from `from`; `None` is the
     * start-up failure. A failed scan leaves the port as it was.
     */
    method StartFrom(from: int, available: int -> bool) returns (r: Option<int>)
      modifies this
      ensures r == FirstAvailable(from, from + ScanWidth, available)
      ensures r.Some? ==> port == r.value
      ensures r.None? ==> port == old(port)
    {
      r := FindAvailablePort(from, available);
      if r.Some? {
        port := r.value;
      }
    }

    /** The initial start scans from the default port. */
    method Start(available: int -> bool) returns (r: Option<int>)
      modifies this
      ensures r == FirstAvailable(DefaultPort, DefaultPort + ScanWidth, available)
      ensures r.Some? ==> port == r.value
      ensures r.None? ==> port == old(port)
    {
      r := StartFrom(DefaultPort, available);
    }

    /**
     * The server's `error` handler: on `EADDRINUSE` move to the next port and
     * start again from there; any other error changes nothing. `None` means no
     * restart happened or the restart found no port.
     */
    method OnListenError(code: string, available: int -> bool) returns (r: Option<int>)
      modifies this
      ensures code == "EADDRINUSE" ==> r == RetryPort(old(port), available)
      ensures code == "EADDRINUSE" && r.Some? ==> port == r.value && port > old(port)
      ensures code == "EADDRINUSE" && r.None? ==> port == old(port) + 1
      ensures code != "EADDRINUSE" ==> r == None && port == old(port)
    {
      if code == "EADDRINUSE" {
        port := port + 1;
        r := StartFrom(port, available);
        RetryMovesPastFailedPort(old(port), available);
      } else {
        r := None;
      }
    }
  }

  /** The default document: `/` is served as `/index.html`. */
  function ResolvePathname(pathname: string): (r: string)
    ensures pathname == "/" ==> r == "/index.html"
    ensures pathname != "/" ==> r == pathname
  {
    if pathname == "/" then "/index.html" else pathname
  }

  /*
   * `path.extname` scans the path backwards: trailing `/` characters are skipped,
   * the last name runs back to the previous `/`, and the extension starts at the
   * last `.` of that name.
   */

  /** The end of the last name in `s[..n]`: trailing `/` characters are skipped. */
  function NameEnd(s: string, n: nat): (e: nat)
    requires n <= |s|
    ensures e <= n
  {
    if n > 0 && s[n - 1] == '/' then NameEnd(s, n - 1) else n
  }

  lemma {:induction false} NameEndSpec(s: string, n: nat)
    requires n <= |s|
    ensures var e := NameEnd(s, n);
            && (forall i :: e <= i < n ==> s[i] == '/')
            && (e == 0 || s[e - 1] != '/')
  {
    if n > 0 && s[n - 1] == '/' {
      NameEndSpec(s, n - 1);
    }
  }

  /** The start of the name that ends at `e`: just after the last `/` before it. */
  function NameStart(s: string, e: nat): (b: nat)
    requires e <= |s|
    ensures b <= e
  {
    if e == 0 || s[e - 1] == '/' then e else NameStart(s, e - 1)
  }

  lemma {:induction false} NameStartSpec(s: string, e: nat)
    requires e <= |s|
    ensures var b := NameStart(s, e);
            && (forall i :: b <= i < e ==> s[i] != '/')
            && (b == 0 || s[b - 1] == '/')
  {
    if !(e == 0 || s[e - 1] == '/') {
      NameStartSpec(s, e - 1);
    }
  }

  /** The last path segment, trailing slashes ignored (`path.basename`). */
  function BaseName(path: string): (r: string)
  {
    var e := NameEnd(path, |path|);
    path[NameStart(path, e)..e]
  }

  /**
   * The base name holds no `/`, is preceded by a `/` or the start of the path, and
   * is followed by `/` characters only.
   */
  lemma BaseNameSpec(path: string)
    ensures '/' !in BaseName(path)
    ensures var e := NameEnd(path, |path|);
            var b := NameStart(path, e);
            && (b == 0 || path[b - 1] == '/')
            && (forall i :: e <= i < |path| ==> path[i] == '/')
  {
    var e := NameEnd(path, |path|);
    NameEndSpec(path, |path|);
    NameStartSpec(path, e);
    NoSlashInName(path, NameStart(path, e), e);
  }

  lemma NoSlashInName(path: string, b: nat, e: nat)
    requires b <= e <= |path|
    requires forall i :: b <= i < e ==> path[i] != '/'
    ensures '/' !in path[b..e]
  {
    var base := path[b..e];
    forall k | 0 <= k < |base| ensures base[k] != '/' {
      assert base[k] == path[b + k];
    }
  }

  /** The index of the last `.` in `s[lo..n]`, if any. */
  function LastDot(s: string, lo: nat, n: nat): (r: Option<nat>)
    requires lo <= n <= |s|
    ensures r.Some? ==> lo <= r.value < n
    decreases n
  {
    if n == lo then None
    else if s[n - 1] == '.' then Some(n - 1)
    else LastDot(s, lo, n - 1)
  }

  lemma {:induction false} LastDotSpec(s: string, lo: nat, n: nat)
    requires lo <= n <= |s|
    ensures var r := LastDot(s, lo, n);
            && (r.Some? ==> s[r.value] == '.' && forall i :: r.value < i < n ==> s[i] != '.')
            && (r.None? ==> forall i :: lo <= i < n ==> s[i] != '.')
    decreases n
  {
    if n != lo && s[n - 1] != '.' {
      LastDotSpec(s, lo, n - 1);
    }
  }

  /**
   * `path.extname`: the base name from its last `.` on; empty when the name has no
   * dot, when its only dot starts it (`.bashrc`), and for `..`.
   */
  function ExtName(path: string): (r: string)
  {
    var base := BaseName(path);
    match LastDot(base, 0, |base|)
    case None => ""
    case Some(d) => if d == 0 || base == ".." then "" else base[d..]
  }

  /**
   * A non-empty extension is a dot followed by no dot and no `/`, and it ends the
   * base name after at least one other character.
   */
  lemma ExtNameSpec(path: string)
    ensures var e := ExtName(path);
            var base := BaseName(path);
            && (e != [] ==> e[0] == '.' && '.' !in e[1..] && '/' !in e
                            && |e| < |base| && e == base[|base| - |e|..])
            && (e == [] <==> '.' !in base || (base[0] == '.' && '.' !in base[1..]) || base == "..")
  {
    var base := BaseName(path);
    BaseNameSpec(path);
    var d := LastDot(base, 0, |base|);
    LastDotSpec(base, 0, |base|);
    if d.Some? {
      var rest := base[d.value + 1..];
      assert forall k :: 0 <= k < |rest| ==> rest[k] == base[d.value + 1 + k];
      assert '.' !in rest;
      if d.value > 0 && base != ".." {
        assert ExtName(path) == base[d.value..];
        assert base[d.value..][1..] == rest;
      } else if d.value == 0 {
        assert base[1..] == rest;
      }
    }
  }

  /** ASCII lower-casing of one character. */
  function LowerChar(c: char): (r: char)
    ensures 'A' <= c <= 'Z' ==> r as int == c as int + 32
    ensures !('A' <= c <= 'Z') ==> r == c
  {
    if 'A' <= c <= 'Z' then (c as int + 32) as char else c
  }

  /** ASCII lower-casing of a string. */
  function ToLower(s: string): (r: string)
    ensures |r| == |s|
    ensures forall i :: 0 <= i < |s| ==> r[i] == LowerChar(s[i])
  {
    if s == [] then [] else [LowerChar(s[0])] + ToLower(s[1..])
  }

  /** The extension → MIME type table. */
  const MimeTypes: map<string, string> := map[
    ".html" := "text/html",
    ".js" := "text/javascript",
    ".css" := "text/css",
    ".json" := "application/json",
    ".png" := "image/png",
    ".jpg" := "image/jpeg",
    ".gif" := "image/gif",
    ".svg" := "image/svg+xml",
    ".ico" := "image/x-icon",
    ".woff" := "font/woff",
    ".woff2" := "font/woff2",
    ".ttf" := "font/ttf",
    ".eot" := "application/vnd.ms-fontobject"
  ]

  const OctetStream: string := "application/octet-stream"

  /** `mimeTypes[ext] || 'application/octet-stream'` for the lower-cased extension. */
  function MimeTypeFor(path: string): (r: string)
    ensures ToLower(ExtName(path)) in MimeTypes ==> r == MimeTypes[ToLower(ExtName(path))]
    ensures ToLower(ExtName(path)) !in MimeTypes ==> r == OctetStream
  {
    var ext := ToLower(ExtName(path));
    if ext in MimeTypes then MimeTypes[ext] else OctetStream
  }

  /** Every type the lookup yields is a table entry or the fallback. */
  lemma MimeTypeKnown(path: string)
    ensures MimeTypeFor(path) in MimeTypes.Values || MimeTypeFor(path) == OctetStream
  {
    var ext := ToLower(ExtName(path));
    if ext in MimeTypes {
      assert MimeTypes[ext] in MimeTypes.Values;
    }
  }

  /** A string without capital letters is its own lower-case form. */
  lemma ToLowerOfLower(s: string)
    requires forall i :: 0 <= i < |s| ==> !('A' <= s[i] <= 'Z')
    ensures ToLower(s) == s
  {
  }

  /** The default document is served as HTML. */
  lemma IndexIsHtml()
    ensures MimeTypeFor(ResolvePathname("/")) == "text/html"
  {
    var p := "/index.html";
    assert |p| == 11;
    assert NameEnd(p, 11) == 11;
    assert NameStart(p, 11) == 1;
    assert BaseName(p) == p[1..11] == "index.html";
    assert LastDot("index.html", 0, 10) == Some(5);
    assert ExtName(p) == "index.html"[5..] == ".html";
    ToLowerOfLower(".html");
  }

  /** The extension is compared after lower-casing: `/app.JS` is JavaScript. */
  lemma UpperCaseExtension()
    ensures MimeTypeFor("/app.JS") == "text/javascript"
  {
    var p := "/app.JS";
    assert |p| == 7;
    assert NameEnd(p, 7) == 7;
    assert NameStart(p, 7) == 1;
    assert BaseName(p) == p[1..7] == "app.JS";
    assert LastDot("app.JS", 0, 6) == Some(3);
    assert ExtName(p) == "app.JS"[3..] == ".JS";
    assert ToLower(".JS") == ".js";
  }

  /** A dot file has no extension, so it gets the fallback type. */
  lemma DotFileIsOctetStream()
    ensures MimeTypeFor("/.json") == OctetStream
  {
    var p := "/.json";
    assert |p| == 6;
    assert NameEnd(p, 6) == 6;
    assert NameStart(p, 6) == 1;
    assert BaseName(p) == p[1..6] == ".json";
    assert LastDot(".json", 0, 5) == Some(0);
    assert ExtName(p) == "";
    assert ToLower("") == "";
  }

  /**
   * The file system as seen under the build directory: whether a path exists
   * (`fs.access`) and its content, or `None` on a read error (`fs.readFile`).
   */
  datatype FileSystem = FileSystem(exists_: string -> bool, read: string -> Option<string>)

  datatype Response = Response(status: int, contentType: string, body: string)

  const IndexPath: string := "/index.html"

  /** The response to a request for `pathname`. */
  function HandleRequest(pathname: string, fs: FileSystem): (r: Response)
  {
    var path := ResolvePathname(pathname);
    if !fs.exists_(path) then
      match fs.read(IndexPath)
      case None => Response(404, "text/plain", "404 Not Found")
      case Some(content) => Response(200, "text/html", content)
    else
      match fs.read(path)
      case None => Response(500, "text/plain", "500 Internal Server Error")
      case Some(content) => Response(200, MimeTypeFor(path), content)
  }

  /**
   * The status is 200, 404 or 500; 404 exactly when the file is missing and the
   * index cannot be read, 500 exactly when the file exists but cannot be read, and a
   * 200 carries the content of the file or, for a missing file, of the index.
   */
  lemma HandleRequestSpec(pathname: string, fs: FileSystem)
    ensures var r := HandleRequest(pathname, fs);
            var path := ResolvePathname(pathname);
            && (r.status == 404 <==> !fs.exists_(path) && fs.read(IndexPath).None?)
            && (r.status == 500 <==> fs.exists_(path) && fs.read(path).None?)
            && (r.status == 200 <==> r.status != 404 && r.status != 500)
            && (r.status == 200 && fs.exists_(path) ==>
                  fs.read(path) == Some(r.body) && r.contentType == MimeTypeFor(path))
            && (r.status == 200 && !fs.exists_(path) ==>
                  fs.read(IndexPath) == Some(r.body) && r.contentType == "text/html")
  {
  }

  /** A path that does not exist gets the same answer as `/`, when the index can be read. */
  lemma MissingPathServesIndex(pathname: string, fs: FileSystem)
    requires !fs.exists_(ResolvePathname(pathname))
    requires fs.read(IndexPath).Some?
    ensures HandleRequest(pathname, fs) == HandleRequest("/", fs)
  {
    IndexIsHtml();
  }
}
