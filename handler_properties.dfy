/**
 * What the request handler promises, stated over ImageHandler.Process (which
 * RequestHandler.ProcessRequest is proved to compute) and proved for all inputs.
 */
module HandlerProperties {
  import opened Wrappers
  import opened Text
  import opened Paths
  import opened ResolutionCache
  import opened ImageHandler

  /** The extensions from position `i` on whose candidate file exists, in probe order. */
  function HitsFrom(path: string, fs: FileSystem, exts: seq<string>, i: nat): (r: seq<string>)
    requires i <= |exts|
    decreases |exts| - i
  {
    if i == |exts| then []
    else (if GetImagePath(path, exts[i]) in fs then [exts[i]] else []) + HitsFrom(path, fs, exts, i + 1)
  }

  /** The probed extensions whose candidate file exists, in probe order. */
  function Hits(path: string, fs: FileSystem): seq<string> {
    HitsFrom(path, fs, Extensions, 0)
  }

  /** The redirect target for the candidate with extension `ext`. */
  function TargetUrl(absoluteUri: string, path: string, ext: string): string
    requires '/' in absoluteUri
  {
    StaticUrl(absoluteUri, FileName(GetImagePath(path, ext))).value
  }

  /** The redirect targets for a list of extensions, in the same order. */
  function Targets(absoluteUri: string, path: string, exts: seq<string>): (r: seq<string>)
    requires '/' in absoluteUri
    ensures |r| == |exts|
    ensures forall k :: 0 <= k < |exts| ==> r[k] == TargetUrl(absoluteUri, path, exts[k])
  {
    if exts == [] then [] else [TargetUrl(absoluteUri, path, exts[0])] + Targets(absoluteUri, path, exts[1..])
  }

  /** The response the fallback branch starts from: cleared when the client is Chrome. */
  function FallbackStart(userAgent: string): Response {
    if IsChrome(userAgent) then ClearContent(ClearHeaders(Untouched)) else Untouched
  }

  /** The request reaches ImageFallback: a non-Chrome client, or a Chrome client
      with no cached payload and no WebP file. */
  predicate EntersFallback(c: Cache, absoluteUri: string, path: string, userAgent: string, fs: FileSystem) {
    !IsChrome(userAgent)
    || ((GetFromCache(c, absoluteUri).None? || GetFromCache(c, absoluteUri).value.webpContent.None?) && path !in fs)
  }

  /** There is no usable cached fallback URL for the request. */
  predicate NoCachedFallback(c: Cache, absoluteUri: string) {
    GetFromCache(c, absoluteUri).None? || IsNullOrWhiteSpace(GetFromCache(c, absoluteUri).value.fallbackImage)
  }

  // ---------------------------------------------------------------------------
  // The probe loop

  /** One probe step on a missing candidate moves on. */
  lemma ProbeStepMiss(absoluteUri: string, path: string, fs: FileSystem, exts: seq<string>, i: nat, st: ProbeState)
    requires i < |exts| && GetImagePath(path, exts[i]) !in fs
    ensures Probe(absoluteUri, path, fs, exts, i, st) == Probe(absoluteUri, path, fs, exts, i + 1, st)
  {
  }

  /** One probe step on a present candidate, with a '/' in the URI, caches and redirects to its URL. */
  lemma ProbeStepHit(absoluteUri: string, path: string, fs: FileSystem, exts: seq<string>, i: nat, st: ProbeState)
    requires i < |exts| && GetImagePath(path, exts[i]) in fs && '/' in absoluteUri
    ensures var url := TargetUrl(absoluteUri, path, exts[i]);
      Probe(absoluteUri, path, fs, exts, i, st)
        == Probe(absoluteUri, path, fs, exts, i + 1,
                 ProbeState(WithFallback(st.cache, absoluteUri, url, path), Redirect(st.resp, url), true))
  {
  }

  /** The state the probe loop ends in, started from `st`, when `hits` are the
      extensions found and the URI has a '/'. */
  function ProbeOutcome(absoluteUri: string, path: string, hits: seq<string>, st: ProbeState): ProbeState
    requires '/' in absoluteUri
  {
    ProbeState(
      if hits == [] then st.cache else WithFallback(st.cache, absoluteUri, TargetUrl(absoluteUri, path, hits[|hits| - 1]), path),
      st.resp.(redirects := st.resp.redirects + Targets(absoluteUri, path, hits)),
      st.found || hits != [])
  }

  lemma TargetsCons(absoluteUri: string, path: string, e: string, rest: seq<string>)
    requires '/' in absoluteUri
    ensures Targets(absoluteUri, path, [e] + rest) == [TargetUrl(absoluteUri, path, e)] + Targets(absoluteUri, path, rest)
  {
    assert ([e] + rest)[1..] == rest;
  }

  /** The fallback cached after finding `e` and then `hits`: the last one found. */
  lemma LastFallbackWins(c: Cache, absoluteUri: string, path: string, e: string, rest: seq<string>)
    requires '/' in absoluteUri
    ensures var hits := [e] + rest;
      (if rest == [] then WithFallback(c, absoluteUri, TargetUrl(absoluteUri, path, e), path)
       else WithFallback(WithFallback(c, absoluteUri, TargetUrl(absoluteUri, path, e), path), absoluteUri, TargetUrl(absoluteUri, path, rest[|rest| - 1]), path))
      == WithFallback(c, absoluteUri, TargetUrl(absoluteUri, path, hits[|hits| - 1]), path)
  {
    var hits := [e] + rest;
    if rest != [] {
      assert hits[|hits| - 1] == rest[|rest| - 1];
      FallbackOverwrites(c, absoluteUri, TargetUrl(absoluteUri, path, e), TargetUrl(absoluteUri, path, rest[|rest| - 1]), path, path);
    }
  }

  /** Finding one more extension first, then `rest`, ends where finding `[e] + rest` does. */
  lemma ProbeOutcomeCons(absoluteUri: string, path: string, e: string, rest: seq<string>, st: ProbeState)
    requires '/' in absoluteUri
    ensures var url := TargetUrl(absoluteUri, path, e);
      ProbeOutcome(absoluteUri, path, rest, ProbeState(WithFallback(st.cache, absoluteUri, url, path), Redirect(st.resp, url), true))
        == ProbeOutcome(absoluteUri, path, [e] + rest, st)
  {
    var url := TargetUrl(absoluteUri, path, e);
    TargetsCons(absoluteUri, path, e, rest);
    assert st.resp.redirects + [url] + Targets(absoluteUri, path, rest) == st.resp.redirects + ([url] + Targets(absoluteUri, path, rest));
    LastFallbackWins(st.cache, absoluteUri, path, e, rest);
  }

  /** The probe loop, with a '/' in the URI, redirects to every existing
      candidate in probe order and leaves the last one as the fallback. */
  lemma {:induction false} ProbeRedirectsToEveryHit(absoluteUri: string, path: string, fs: FileSystem, exts: seq<string>, i: nat, st: ProbeState)
    requires i <= |exts| && '/' in absoluteUri
    ensures Probe(absoluteUri, path, fs, exts, i, st) == ProbeOutcome(absoluteUri, path, HitsFrom(path, fs, exts, i), st)
    decreases |exts| - i
  {
    if i == |exts| {
      assert st.resp.redirects + Targets(absoluteUri, path, []) == st.resp.redirects;
      assert Probe(absoluteUri, path, fs, exts, i, st) == ProbeOutcome(absoluteUri, path, [], st);
    } else {
      var e := exts[i];
      var rest := HitsFrom(path, fs, exts, i + 1);
      if GetImagePath(path, e) !in fs {
        assert HitsFrom(path, fs, exts, i) == rest;
        ProbeStepMiss(absoluteUri, path, fs, exts, i, st);
        ProbeRedirectsToEveryHit(absoluteUri, path, fs, exts, i + 1, st);
        assert Probe(absoluteUri, path, fs, exts, i, st) == ProbeOutcome(absoluteUri, path, rest, st);
      } else {
        var url := TargetUrl(absoluteUri, path, e);
        var next := ProbeState(WithFallback(st.cache, absoluteUri, url, path), Redirect(st.resp, url), true);
        ProbeStepHit(absoluteUri, path, fs, exts, i, st);
        ProbeRedirectsToEveryHit(absoluteUri, path, fs, exts, i + 1, next);
        ProbeOutcomeCons(absoluteUri, path, e, rest, st);
        assert HitsFrom(path, fs, exts, i) == [e] + rest;
        assert Probe(absoluteUri, path, fs, exts, i, st) == ProbeOutcome(absoluteUri, path, [e] + rest, st);
      }
    }
  }

  /** With no '/' in the URI the first existing candidate throws: nothing is
      cached or redirected, and the response is failed iff some candidate exists. */
  lemma {:induction false} ProbeWithoutSlash(absoluteUri: string, path: string, fs: FileSystem, exts: seq<string>, i: nat, st: ProbeState)
    requires i <= |exts| && '/' !in absoluteUri
    ensures Probe(absoluteUri, path, fs, exts, i, st)
         == if HitsFrom(path, fs, exts, i) == [] then st else st.(resp := st.resp.(failed := true))
    decreases |exts| - i
  {
    if i < |exts| && GetImagePath(path, exts[i]) !in fs {
      ProbeWithoutSlash(absoluteUri, path, fs, exts, i + 1, st);
    }
  }

  /** The probe loop only creates or upgrades the request's entry. */
  lemma {:induction false} ProbeUpgrades(absoluteUri: string, path: string, fs: FileSystem, exts: seq<string>, i: nat, st: ProbeState)
    requires i <= |exts|
    ensures UpgradesAt(st.cache, Probe(absoluteUri, path, fs, exts, i, st).cache, Key(absoluteUri))
    decreases |exts| - i
  {
    var key := Key(absoluteUri);
    var result := Probe(absoluteUri, path, fs, exts, i, st);
    if i == |exts| {
      UpgradesAtReflexive(st.cache, key);
    } else {
      var imagePath := GetImagePath(path, exts[i]);
      if imagePath !in fs {
        assert result == Probe(absoluteUri, path, fs, exts, i + 1, st);
        ProbeUpgrades(absoluteUri, path, fs, exts, i + 1, st);
      } else if StaticUrl(absoluteUri, FileName(imagePath)).None? {
        assert result.cache == st.cache;
        UpgradesAtReflexive(st.cache, key);
      } else {
        var url := StaticUrl(absoluteUri, FileName(imagePath)).value;
        var next := ProbeState(WithFallback(st.cache, absoluteUri, url, path), Redirect(st.resp, url), true);
        assert result == Probe(absoluteUri, path, fs, exts, i + 1, next);
        UpsertsUpgrade(st.cache, absoluteUri, [], url, path);
        ProbeUpgrades(absoluteUri, path, fs, exts, i + 1, next);
        UpgradesAtTransitive(st.cache, next.cache, result.cache, key);
      }
    }
  }

  /** The candidates are probed in the order png, jpg, jpeg, each kept iff its file exists. */
  lemma HitsInProbeOrder(path: string, fs: FileSystem)
    ensures Hits(path, fs)
         == (if GetImagePath(path, "png") in fs then ["png"] else [])
          + (if GetImagePath(path, "jpg") in fs then ["jpg"] else [])
          + (if GetImagePath(path, "jpeg") in fs then ["jpeg"] else [])
  {
    var png := if GetImagePath(path, "png") in fs then ["png"] else [];
    var jpg := if GetImagePath(path, "jpg") in fs then ["jpg"] else [];
    var jpeg := if GetImagePath(path, "jpeg") in fs then ["jpeg"] else [];
    assert Extensions[0] == "png" && Extensions[1] == "jpg" && Extensions[2] == "jpeg";
    var h3 := HitsFrom(path, fs, Extensions, 3);
    assert h3 == [];
    var h2 := HitsFrom(path, fs, Extensions, 2);
    assert h2 == jpeg + h3;
    assert h2 == jpeg;
    var h1 := HitsFrom(path, fs, Extensions, 1);
    assert h1 == jpg + jpeg;
    assert Hits(path, fs) == png + (jpg + jpeg);
    assert png + (jpg + jpeg) == png + jpg + jpeg;
  }

  /** The loop does not break, so the last existing candidate in probe order wins. */
  lemma LastHitWins(path: string, fs: FileSystem)
    requires Hits(path, fs) != []
    ensures Hits(path, fs)[|Hits(path, fs)| - 1]
         == if GetImagePath(path, "jpeg") in fs then "jpeg"
            else if GetImagePath(path, "jpg") in fs then "jpg"
            else "png"
  {
    HitsInProbeOrder(path, fs);
  }

  /** A redirect target is the request's directory, '/', the `.webp` file's stem, '.', the extension. */
  lemma TargetUrlShape(absoluteUri: string, path: string, ext: string)
    requires '/' in absoluteUri && ext in Extensions
    ensures TargetUrl(absoluteUri, path, ext)
         == UrlDirectory(absoluteUri).value + "/" + (FileNameWithoutExtension(path) + "." + ext)
  {
    var name := FileName(GetImagePath(path, ext));
    var stem := FileNameWithoutExtension(path);
    var dir := UrlDirectory(absoluteUri).value;
    assert name == stem + "." + ext by {
      ExtensionsAreNames(ext);
      GetImagePathName(path, ext);
    }
    assert TargetUrl(absoluteUri, path, ext) == dir + "/" + name;
  }

  /** Every probed extension is a plain name without separator or '.'. */
  lemma ExtensionsAreNames(ext: string)
    requires ext in Extensions
    ensures NoNameSeparator(ext) && '.' !in ext
  {
    assert ext == "png" || ext == "jpg" || ext == "jpeg";
  }

  /** A redirect target contains '/', so it is never null or white space. */
  lemma TargetUrlNotWhiteSpace(absoluteUri: string, path: string, ext: string)
    requires '/' in absoluteUri
    ensures !IsNullOrWhiteSpace(Some(TargetUrl(absoluteUri, path, ext)))
  {
    var dir := UrlDirectory(absoluteUri).value;
    var name := FileName(GetImagePath(path, ext));
    assert TargetUrl(absoluteUri, path, ext) == dir + "/" + name;
    SlashedNotWhiteSpace(dir, name);
  }

  lemma SlashedNotWhiteSpace(dir: string, name: string)
    ensures !IsNullOrWhiteSpace(Some(dir + "/" + name))
  {
    var url := dir + "/" + name;
    assert url[|dir|] == '/';
    assert !IsWhiteSpace(url[|dir|]);
  }

  // ---------------------------------------------------------------------------
  // The request

  /** A URI that does not end in ".webp", in any case, passes through untouched. */
  lemma PassThrough(c: Cache, absoluteUri: string, path: string, userAgent: Option<string>, fs: FileSystem)
    requires !EndsWithIgnoreCase(absoluteUri, ".webp")
    ensures Process(c, absoluteUri, path, userAgent, fs) == (Untouched, c)
  {
  }

  /** The extension test is on the whole URI: a query string after ".webp" makes it pass through. */
  lemma QueryStringPassesThrough(c: Cache, path: string, userAgent: Option<string>, fs: FileSystem)
    ensures Process(c, "http://host/img/a.webp?x=1", path, userAgent, fs) == (Untouched, c)
  {
    var u := "http://host/img/a.webp?x=1";
    var tail := u[|u| - 5..];
    assert tail[0] == 'p';
    assert ToLower(tail)[0] == 'p';
  }

  /** A missing user agent makes the handler throw before touching the response or the cache. */
  lemma NullUserAgentFails(c: Cache, absoluteUri: string, path: string, fs: FileSystem)
    requires EndsWithIgnoreCase(absoluteUri, ".webp")
    ensures Process(c, absoluteUri, path, None, fs) == (Untouched.(failed := true), c)
  {
  }

  /** Warm hit: a Chrome client with a cached payload gets those bytes as image/webp
      after clearing, the cache is unchanged, and neither the path nor the file
      system is consulted. */
  lemma WarmWebpHit(c: Cache, absoluteUri: string, path: string, userAgent: string, fs: FileSystem, otherPath: string, otherFs: FileSystem)
    requires EndsWithIgnoreCase(absoluteUri, ".webp") && IsChrome(userAgent)
    requires GetFromCache(c, absoluteUri).Some? && GetFromCache(c, absoluteUri).value.webpContent.Some?
    ensures var content := GetFromCache(c, absoluteUri).value.webpContent.value;
      Process(c, absoluteUri, path, Some(userAgent), fs)
        == (Response(content, [("Content-type", "image/webp")], [], None, true, true, false), c)
    ensures Process(c, absoluteUri, path, Some(userAgent), fs) == Process(c, absoluteUri, otherPath, Some(userAgent), otherFs)
  {
    var content := GetFromCache(c, absoluteUri).value.webpContent.value;
    var cleared := ClearContent(ClearHeaders(Untouched));
    assert cleared.body + content == content;
    assert ReturnWebpContent(cleared, content) == Response(content, [("Content-type", "image/webp")], [], None, true, true, false);
  }

  /** Cold hit: a Chrome client with no cached payload and a WebP file gets the
      file's bytes; the entry under the lower-cased URI then holds them, keeps its
      fallback, and is bound to the file. No other entry changes. */
  lemma ColdWebpHit(c: Cache, absoluteUri: string, path: string, userAgent: string, fs: FileSystem)
    requires EndsWithIgnoreCase(absoluteUri, ".webp") && IsChrome(userAgent)
    requires GetFromCache(c, absoluteUri).None? || GetFromCache(c, absoluteUri).value.webpContent.None?
    requires path in fs
    ensures var (resp, c') := Process(c, absoluteUri, path, Some(userAgent), fs);
      && resp == Response(fs[path], [("Content-type", "image/webp")], [], None, true, true, false)
      && Key(absoluteUri) in c'
      && c'[Key(absoluteUri)] == CacheSlot(ImageCacheModel(Some(fs[path]), GetFromCache(c, absoluteUri).GetOr(EmptyItem).fallbackImage), path)
      && forall k :: k in c && k != Key(absoluteUri) ==> k in c' && c'[k] == c[k]
  {
  }

  /** Cold then warm: once a Chrome client has been served from disk, every later
      Chrome request for the same URI up to case gets byte-identical output from
      the cache, whatever the file system then holds, and nothing changes. */
  lemma ColdThenWarm(c: Cache, absoluteUri: string, path: string, userAgent: string, fs: FileSystem,
                     laterUri: string, laterPath: string, laterAgent: string, laterFs: FileSystem)
    requires EndsWithIgnoreCase(absoluteUri, ".webp") && IsChrome(userAgent)
    requires GetFromCache(c, absoluteUri).None? || GetFromCache(c, absoluteUri).value.webpContent.None?
    requires path in fs
    requires EqualsIgnoreCase(laterUri, absoluteUri) && IsChrome(laterAgent)
    ensures var (resp, c') := Process(c, absoluteUri, path, Some(userAgent), fs);
      Process(c', laterUri, laterPath, Some(laterAgent), laterFs) == (resp, c')
  {
    var (resp, c') := Process(c, absoluteUri, path, Some(userAgent), fs);
    EndsWithIgnoreCaseRespectsFolding(laterUri, absoluteUri, ".webp");
    KeyIgnoresCase(c', laterUri, absoluteUri);
  }

  /** On the fallback branch the request is ImageFallback from the (cleared, for Chrome) response. */
  lemma ProcessEntersFallback(c: Cache, absoluteUri: string, path: string, userAgent: string, fs: FileSystem)
    requires EndsWithIgnoreCase(absoluteUri, ".webp") && EntersFallback(c, absoluteUri, path, userAgent, fs)
    ensures Process(c, absoluteUri, path, Some(userAgent), fs) == Fallback(c, absoluteUri, path, fs, FallbackStart(userAgent))
  {
  }

  /** Without a usable cached fallback, ImageFallback is the probe loop, then 404 if nothing was found. */
  lemma FallbackIsProbe(c: Cache, absoluteUri: string, path: string, fs: FileSystem, resp: Response)
    requires !resp.failed && NoCachedFallback(c, absoluteUri)
    ensures var st := Probe(absoluteUri, path, fs, Extensions, 0, ProbeState(c, resp, false));
      Fallback(c, absoluteUri, path, fs, resp)
        == if st.resp.failed || st.found then (st.resp, st.cache) else (NotFound(st.resp), st.cache)
  {
  }

  /** Cached fallback: on the fallback branch a usable cached fallback URL is
      redirected to, with no probing and no change to the cache. */
  lemma CachedFallbackRedirects(c: Cache, absoluteUri: string, path: string, userAgent: string, fs: FileSystem)
    requires EndsWithIgnoreCase(absoluteUri, ".webp") && EntersFallback(c, absoluteUri, path, userAgent, fs)
    requires !NoCachedFallback(c, absoluteUri)
    ensures Process(c, absoluteUri, path, Some(userAgent), fs)
         == (Redirect(FallbackStart(userAgent), GetFromCache(c, absoluteUri).value.fallbackImage.value), c)
  {
  }

  /** Probing: with no usable cached fallback and some candidate present, the
      handler redirects to every present candidate in probe order, issues no 404,
      and caches the last one as the fallback, bound to the `.webp` path. */
  lemma ProbeRedirects(c: Cache, absoluteUri: string, path: string, userAgent: string, fs: FileSystem)
    requires EndsWithIgnoreCase(absoluteUri, ".webp") && EntersFallback(c, absoluteUri, path, userAgent, fs)
    requires NoCachedFallback(c, absoluteUri) && '/' in absoluteUri && Hits(path, fs) != []
    ensures var hits := Hits(path, fs);
      Process(c, absoluteUri, path, Some(userAgent), fs)
        == (FallbackStart(userAgent).(redirects := Targets(absoluteUri, path, hits)),
            WithFallback(c, absoluteUri, TargetUrl(absoluteUri, path, hits[|hits| - 1]), path))
  {
    var start := FallbackStart(userAgent);
    var hits := Hits(path, fs);
    ProcessEntersFallback(c, absoluteUri, path, userAgent, fs);
    FallbackIsProbe(c, absoluteUri, path, fs, start);
    ProbeRedirectsToEveryHit(absoluteUri, path, fs, Extensions, 0, ProbeState(c, start, false));
    var st := Probe(absoluteUri, path, fs, Extensions, 0, ProbeState(c, start, false));
    assert st == ProbeOutcome(absoluteUri, path, hits, ProbeState(c, start, false));
    assert start.redirects + Targets(absoluteUri, path, hits) == Targets(absoluteUri, path, hits);
    assert st.found && !st.resp.failed;
  }

  /** Not found: with no usable cached fallback and no candidate present, the
      response is cleared with status 404, nothing is redirected and the cache is unchanged. */
  lemma NotFoundWhenNoCandidate(c: Cache, absoluteUri: string, path: string, userAgent: string, fs: FileSystem)
    requires EndsWithIgnoreCase(absoluteUri, ".webp") && EntersFallback(c, absoluteUri, path, userAgent, fs)
    requires NoCachedFallback(c, absoluteUri) && Hits(path, fs) == []
    ensures Process(c, absoluteUri, path, Some(userAgent), fs)
         == (Response([], [], [], Some(404), true, true, false), c)
  {
    ProcessEntersFallback(c, absoluteUri, path, userAgent, fs);
    FallbackIsProbe(c, absoluteUri, path, fs, FallbackStart(userAgent));
    var start := ProbeState(c, FallbackStart(userAgent), false);
    if '/' in absoluteUri {
      ProbeRedirectsToEveryHit(absoluteUri, path, fs, Extensions, 0, start);
    } else {
      ProbeWithoutSlash(absoluteUri, path, fs, Extensions, 0, start);
    }
  }

  /** A URI without '/' makes the first candidate found throw: no redirect, no cache change. */
  lemma UriWithoutSlashFails(c: Cache, absoluteUri: string, path: string, userAgent: string, fs: FileSystem)
    requires EndsWithIgnoreCase(absoluteUri, ".webp") && EntersFallback(c, absoluteUri, path, userAgent, fs)
    requires NoCachedFallback(c, absoluteUri) && '/' !in absoluteUri && Hits(path, fs) != []
    ensures Process(c, absoluteUri, path, Some(userAgent), fs) == (FallbackStart(userAgent).(failed := true), c)
  {
    ProcessEntersFallback(c, absoluteUri, path, userAgent, fs);
    FallbackIsProbe(c, absoluteUri, path, fs, FallbackStart(userAgent));
    ProbeWithoutSlash(absoluteUri, path, fs, Extensions, 0, ProbeState(c, FallbackStart(userAgent), false));
  }

  /** After a probe that found a candidate, a later non-Chrome request for the same
      URI up to case is redirected straight to the cached target, whatever the file
      system then holds, and the cache stays as it is. */
  lemma ProbeThenCachedRedirect(c: Cache, absoluteUri: string, path: string, userAgent: string, fs: FileSystem,
                                laterUri: string, laterPath: string, laterAgent: string, laterFs: FileSystem)
    requires EndsWithIgnoreCase(absoluteUri, ".webp") && EntersFallback(c, absoluteUri, path, userAgent, fs)
    requires NoCachedFallback(c, absoluteUri) && '/' in absoluteUri && Hits(path, fs) != []
    requires EqualsIgnoreCase(laterUri, absoluteUri) && !IsChrome(laterAgent)
    ensures var hits := Hits(path, fs);
      var c' := Process(c, absoluteUri, path, Some(userAgent), fs).1;
      Process(c', laterUri, laterPath, Some(laterAgent), laterFs)
        == (Redirect(Untouched, TargetUrl(absoluteUri, path, hits[|hits| - 1])), c')
  {
    var hits := Hits(path, fs);
    var target := TargetUrl(absoluteUri, path, hits[|hits| - 1]);
    ProbeRedirects(c, absoluteUri, path, userAgent, fs);
    var c' := WithFallback(c, absoluteUri, target, path);
    assert Process(c, absoluteUri, path, Some(userAgent), fs).1 == c';
    TargetUrlNotWhiteSpace(absoluteUri, path, hits[|hits| - 1]);
    EndsWithIgnoreCaseRespectsFolding(laterUri, absoluteUri, ".webp");
    KeyIgnoresCase(c', laterUri, absoluteUri);
    assert GetFromCache(c', laterUri).value.fallbackImage == Some(target);
    ProcessEntersFallback(c', laterUri, laterPath, laterAgent, laterFs);
  }

  /** A request only creates or upgrades the entry under its own key: no entry is
      dropped, no other entry changes, and a field once set stays set. */
  lemma RequestOnlyUpgrades(c: Cache, absoluteUri: string, path: string, userAgent: Option<string>, fs: FileSystem)
    ensures UpgradesAt(c, Process(c, absoluteUri, path, userAgent, fs).1, Key(absoluteUri))
  {
    var c' := Process(c, absoluteUri, path, userAgent, fs).1;
    if !EndsWithIgnoreCase(absoluteUri, ".webp") || userAgent.None? {
      assert c' == c;
    } else {
      var ua := userAgent.value;
      var item := GetFromCache(c, absoluteUri);
      if IsChrome(ua) && item.Some? && item.value.webpContent.Some? {
        assert c' == c;
      } else if IsChrome(ua) && path in fs {
        assert c' == WithContent(c, absoluteUri, fs[path], path);
        UpsertsUpgrade(c, absoluteUri, fs[path], "", path);
      } else {
        ProcessEntersFallback(c, absoluteUri, path, ua, fs);
        if NoCachedFallback(c, absoluteUri) {
          FallbackIsProbe(c, absoluteUri, path, fs, FallbackStart(ua));
          ProbeUpgrades(absoluteUri, path, fs, Extensions, 0, ProbeState(c, FallbackStart(ua), false));
        } else {
          assert c' == c;
        }
      }
    }
  }

  /** Invalidation: once the host evicts the path an entry is bound to, the next
      Chrome request reads the WebP file from disk again and caches the new bytes. */
  lemma InvalidationForcesReload(c: Cache, absoluteUri: string, path: string, userAgent: string, fs: FileSystem)
    requires EndsWithIgnoreCase(absoluteUri, ".webp") && IsChrome(userAgent)
    requires DependencyOf(c, absoluteUri) == Some(path) && path in fs
    ensures var (resp, c') := Process(Evict(c, path), absoluteUri, path, Some(userAgent), fs);
      && resp.body == fs[path]
      && GetFromCache(c', absoluteUri) == Some(ImageCacheModel(Some(fs[path]), None))
  {
    EvictDropsBoundEntry(c, absoluteUri, path);
  }

  /** URIs that differ only in the case of the extension share one cache entry;
      a URI with and without a query string does not. */
  lemma KeyExamples()
    ensures Key("/img/a.WEBP?x=1") == Key("/img/a.webp?x=1")
    ensures Key("/img/a.webp") != Key("/img/a.webp?x=1")
  {
    var upper := "/img/a.WEBP?x=1";
    var lower := "/img/a.webp?x=1";
    var ku := Key(upper);
    var kl := Key(lower);
    forall i | 0 <= i < |upper|
      ensures ku[i] == kl[i]
    {
      assert LowerChar(upper[i]) == LowerChar(lower[i]);
    }
  }
}
