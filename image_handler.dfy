/**
 * The WebP request handler: it intercepts requests for `.webp` URIs, serves the
 * WebP file to clients whose user agent names Chrome, and otherwise redirects to
 * a PNG or JPEG sibling, or answers 404. Per request URL it memoises the payload
 * and the fallback URL in the host's cache.
 *
 * The host is abstracted away: the request is its absolute URI, the physical path
 * `Server.MapPath` gives for its absolute path, and its user agent; the file
 * system is a snapshot map from path to bytes; the response is a record of what
 * the handler did to it.
 */
module ImageHandler {
  import opened Wrappers
  import opened Text
  import opened Paths
  import opened ResolutionCache

  /** A snapshot of the file system: `File.Exists(p)` is `p in fs`, `File.ReadAllBytes(p)` is `fs[p]`. */
  type FileSystem = map<string, Bytes>

  /** What the handler did to the response. `status` is a status code the handler
      set itself; `redirects` lists every `Response.Redirect` call in order;
      `failed` means an exception left the handler and reached the host. */
  datatype Response = Response(
    body: Bytes,
    headers: seq<(string, string)>,
    redirects: seq<string>,
    status: Option<int>,
    headersCleared: bool,
    contentCleared: bool,
    failed: bool)

  /** The response as the host hands it over. */
  const Untouched := Response([], [], [], None, false, false, false)

  /** The extensions probed, in order. */
  const Extensions: seq<string> := ["png", "jpg", "jpeg"]

  /** The user agent token of WebP-capable clients. */
  const ChromeToken := "Chrome/"

  /** `Response.ClearHeaders()`. */
  function ClearHeaders(r: Response): Response {
    r.(headers := [], headersCleared := true)
  }

  /** `Response.ClearContent()`. */
  function ClearContent(r: Response): Response {
    r.(body := [], contentCleared := true)
  }

  /** RequestHandler.ReturnWebpContent: writes the bytes, then adds the content type. */
  function ReturnWebpContent(r: Response, content: Bytes): Response {
    r.(body := r.body + content, headers := r.headers + [("Content-type", "image/webp")])
  }

  /** `Response.Redirect(url)`, recorded as an event. */
  function Redirect(r: Response, url: string): Response {
    r.(redirects := r.redirects + [url])
  }

  /** The not-found branch: content and headers cleared, status 404. */
  function NotFound(r: Response): Response {
    ClearHeaders(ClearContent(r)).(status := Some(404))
  }

  /** The user agent's `IndexOf("Chrome/", InvariantCultureIgnoreCase) >= 0`. */
  predicate IsChrome(userAgent: string) {
    IndexOfIgnoreCase(userAgent, ChromeToken) >= 0
  }

  /** The state the probe loop of ImageFallback carries: the cache, the response and `found`. */
  datatype ProbeState = ProbeState(cache: Cache, resp: Response, found: bool)

  /** The probe loop from extension `i` on. A candidate that exists is redirected
      to and recorded as the fallback, bound to the `.webp` path; the loop does not
      stop at a hit. If the URI has no '/', the first hit throws and ends the loop. */
  function Probe(absoluteUri: string, path: string, fs: FileSystem, exts: seq<string>, i: nat, st: ProbeState): ProbeState
    requires i <= |exts|
    decreases |exts| - i
  {
    if i == |exts| then st
    else
      var imagePath := GetImagePath(path, exts[i]);
      if imagePath !in fs then Probe(absoluteUri, path, fs, exts, i + 1, st)
      else match StaticUrl(absoluteUri, FileName(imagePath))
        case None => st.(resp := st.resp.(failed := true))
        case Some(staticUrl) =>
          Probe(absoluteUri, path, fs, exts, i + 1,
                ProbeState(WithFallback(st.cache, absoluteUri, staticUrl, path), Redirect(st.resp, staticUrl), true))
  }

  /** RequestHandler.ImageFallback as a function of the cache and the response:
      the new response and the new cache. */
  function Fallback(c: Cache, absoluteUri: string, path: string, fs: FileSystem, resp: Response): (Response, Cache)
    requires !resp.failed
  {
    var item := GetFromCache(c, absoluteUri);
    if item.Some? && !IsNullOrWhiteSpace(item.value.fallbackImage) then
      (Redirect(resp, item.value.fallbackImage.value), c)
    else
      var st := Probe(absoluteUri, path, fs, Extensions, 0, ProbeState(c, resp, false));
      if st.resp.failed || st.found then (st.resp, st.cache) else (NotFound(st.resp), st.cache)
  }

  /** RequestHandler.ProcessRequest as a function of the cache: the response and the new cache. */
  function Process(c: Cache, absoluteUri: string, path: string, userAgent: Option<string>, fs: FileSystem): (Response, Cache) {
    var item := GetFromCache(c, absoluteUri);
    if !EndsWithIgnoreCase(absoluteUri, ".webp") then (Untouched, c)
    else if userAgent.None? then (Untouched.(failed := true), c)
    else if IsChrome(userAgent.value) then
      var cleared := ClearContent(ClearHeaders(Untouched));
      if item.Some? && item.value.webpContent.Some? then
        (ReturnWebpContent(cleared, item.value.webpContent.value), c)
      else if path in fs then
        (ReturnWebpContent(cleared, fs[path]), WithContent(c, absoluteUri, fs[path], path))
      else Fallback(c, absoluteUri, path, fs, cleared)
    else Fallback(c, absoluteUri, path, fs, Untouched)
  }

  /** The handler, holding the host's cache as its state. */
  class RequestHandler {
    var cache: Cache

    constructor ()
      ensures cache == map[]
    {
      cache := map[];
    }

    /** Sets the payload of the request's entry, keeping its fallback, bound to `filePath`. */
    method UpdateCacheContent(absoluteUri: string, content: Bytes, filePath: string)
      modifies this
      ensures cache == WithContent(old(cache), absoluteUri, content, filePath)
    {
      var imageCacheItem := GetFromCache(cache, absoluteUri);
      var model := if imageCacheItem.None? then EmptyItem else imageCacheItem.value;
      model := model.(webpContent := Some(content));
      cache := cache[Key(absoluteUri) := CacheSlot(model, filePath)];
    }

    /** Sets the fallback URL of the request's entry, keeping its payload, bound to `filePath`. */
    method UpdateCacheFallback(absoluteUri: string, fallbackUrl: string, filePath: string)
      modifies this
      ensures cache == WithFallback(old(cache), absoluteUri, fallbackUrl, filePath)
    {
      var imageCacheItem := GetFromCache(cache, absoluteUri);
      var model := if imageCacheItem.None? then EmptyItem else imageCacheItem.value;
      model := model.(fallbackImage := Some(fallbackUrl));
      cache := cache[Key(absoluteUri) := CacheSlot(model, filePath)];
    }

    /** Redirects to the cached fallback, or probes the candidates in order and
        redirects to each one present, or answers 404. */
    method ImageFallback(absoluteUri: string, path: string, fs: FileSystem, resp0: Response) returns (resp: Response)
      requires !resp0.failed
      modifies this
      ensures (resp, cache) == Fallback(old(cache), absoluteUri, path, fs, resp0)
    {
      var imageCacheItem := GetFromCache(cache, absoluteUri);
      resp := resp0;
      if imageCacheItem.Some? && !IsNullOrWhiteSpace(imageCacheItem.value.fallbackImage) {
        resp := Redirect(resp, imageCacheItem.value.fallbackImage.value);
      } else {
        var extensions := Extensions;
        var found := false;
        ghost var start := ProbeState(cache, resp0, false);
        for i := 0 to |extensions|
          invariant !resp.failed
          invariant Probe(absoluteUri, path, fs, extensions, 0, start)
                 == Probe(absoluteUri, path, fs, extensions, i, ProbeState(cache, resp, found))
        {
          var imagePath := GetImagePath(path, extensions[i]);
          if imagePath in fs {
            var slash := LastIndexOf(absoluteUri, '/');
            if slash < 0 {
              // Substring(0, -1) throws: the exception leaves the handler.
              resp := resp.(failed := true);
              return;
            }
            var staticUrl := absoluteUri[..slash];
            staticUrl := staticUrl + "/" + FileName(imagePath);
            found := true;
            UpdateCacheFallback(absoluteUri, staticUrl, path);
            resp := Redirect(resp, staticUrl);
          }
        }
        if !found {
          resp := ClearContent(resp);
          resp := ClearHeaders(resp);
          resp := resp.(status := Some(404));
        }
      }
    }

    /** Handles one request. `path` is `Server.MapPath(AbsolutePath)`; a missing
        user agent is None. */
    method ProcessRequest(absoluteUri: string, path: string, userAgent: Option<string>, fs: FileSystem) returns (resp: Response)
      modifies this
      ensures (resp, cache) == Process(old(cache), absoluteUri, path, userAgent, fs)
    {
      var imageCacheItem := GetFromCache(cache, absoluteUri);
      resp := Untouched;
      if EndsWithIgnoreCase(absoluteUri, ".webp") {
        if userAgent.None? {
          // `UserAgent.IndexOf` on null throws.
          resp := resp.(failed := true);
          return;
        }
        if IndexOfIgnoreCase(userAgent.value, ChromeToken) >= 0 {
          resp := ClearHeaders(resp);
          resp := ClearContent(resp);
          if imageCacheItem.Some? && imageCacheItem.value.webpContent.Some? {
            resp := ReturnWebpContent(resp, imageCacheItem.value.webpContent.value);
          } else if path in fs {
            var content := fs[path];
            UpdateCacheContent(absoluteUri, content, path);
            resp := ReturnWebpContent(resp, content);
          } else {
            resp := ImageFallback(absoluteUri, path, fs, resp);
          }
        } else {
          resp := ImageFallback(absoluteUri, path, fs, resp);
        }
      }
    }

    /** The host's reaction to a change of the file at `path`: it removes every
        entry whose CacheDependency watches `path`. */
    method Invalidate(path: string)
      modifies this
      ensures cache == Evict(old(cache), path)
    {
      cache := map k | k in cache && cache[k].dependency != path :: cache[k];
    }
  }
}
