# WebP request handler, modelled in Dafny

`Web.Images.WebP.RequestHandler` is an ASP.NET HTTP handler for `.webp` image requests.

- A client whose user agent contains `Chrome/` gets the WebP file's bytes, from the host's cache when they are there and from disk otherwise.
- Any other client is redirected to a PNG or JPEG sibling of the file. The candidates are `png`, `jpg` and `jpeg`, in that order.
- When no sibling exists, the handler answers 404.
- Per request URI, lower-cased, the handler memoises two things in the host's cache: the WebP payload (an `ImageCacheModel`'s `WebpContent`) and the fallback URL (`FallbackImage`). Each cache insert ties the entry to one file through a `CacheDependency`.

The model has six modules:

- `Wrappers`: `Option`, where `None` stands for `null`.
- `Text`: the .NET string operations the handler calls. These are `ToLower`, `EndsWith` and `IndexOf` with `InvariantCultureIgnoreCase`, `LastIndexOf` and `IsNullOrWhiteSpace`.
- `Paths`: `Path.GetDirectoryName`, `GetFileName`, `GetFileNameWithoutExtension` and `Combine` for Windows paths, plus the handler's `GetImagePath` and its sibling-URL construction.
- `ResolutionCache`: the cache, a `map` from the lower-cased URI to an `ImageCacheModel` plus the path its dependency watches. It defines the values the two upserts and the host's eviction produce.
- `ImageHandler`: the class `RequestHandler`, whose `cache` field is the host's cache.
  - Its methods `ProcessRequest`, `ImageFallback`, `UpdateCacheContent` and `UpdateCacheFallback` follow the C# statement by statement; `ImageFallback` keeps its `foreach` loop.
  - Each method is proved to produce exactly the response and cache given by the functions `Process`, `Fallback`, `Probe`, `WithContent` and `WithFallback`.
- `HandlerProperties`: what the handler promises, proved for all inputs over those functions.

The request is reduced to the handler's inputs:

- `AbsoluteUri`.
- `path`, the physical path `Server.MapPath(AbsolutePath)` returns.
- The user agent, `None` when the header is absent.
- A snapshot of the file system, a map from path to bytes: `File.Exists` is membership and `File.ReadAllBytes` is lookup.

The response is a record of what the handler did to it:

- the bytes written and the headers appended;
- every `Response.Redirect`, in order;
- a status code, if the handler set one;
- whether headers and content were cleared;
- whether an exception escaped to the host.

Within the model, two inputs make the C# code throw, and the model marks the response `failed` for both:

- A missing user agent: `UserAgent.IndexOf` on `null`.
- A URI with no `/` once a candidate exists: `Substring(0, -1)`.

## Model

| member | source | states |
|---|---|---|
| ImageHandler.RequestHandler.ProcessRequest | Web.Images.WebP/RequestHandler.cs:12-48 | The returned response and the new cache are exactly `Process` of the old cache and the request. |
| ImageHandler.RequestHandler.ImageFallback | Web.Images.WebP/RequestHandler.cs:64-99 | The `foreach` loop over `png, jpg, jpeg`, with the early exit on a URI without '/', computes exactly `Fallback`. Its loop invariant ties each iteration to `Probe`. |
| ImageHandler.RequestHandler.UpdateCacheContent | Web.Images.WebP/RequestHandler.cs:108-118 | The new cache is exactly `WithContent` of the old one. |
| ImageHandler.RequestHandler.UpdateCacheFallback | Web.Images.WebP/RequestHandler.cs:120-131 | The new cache is exactly `WithFallback` of the old one. |
| ImageHandler.RequestHandler.Invalidate | Web.Images.WebP/RequestHandler.cs:117 | The host's reaction to a change of a watched file: the new cache is `Evict` of the old one. |
| ImageHandler.Process | Web.Images.WebP/RequestHandler.cs:12-48 | No contract of its own: the request as a value, branch for branch. `RequestHandler.ProcessRequest` is proved to compute it, and the `HandlerProperties` lemmas state its promises. |
| ImageHandler.Fallback | Web.Images.WebP/RequestHandler.cs:64-99 | No contract of its own: the cached-fallback test, then the probe loop and 404. `RequestHandler.ImageFallback` is proved to compute it; `CachedFallbackRedirects`, `ProbeRedirects`, `NotFoundWhenNoCandidate` and `UriWithoutSlashFails` state what it does. |
| ImageHandler.Probe | Web.Images.WebP/RequestHandler.cs:74-90 | No contract of its own: the loop from one extension on. `ProbeRedirectsToEveryHit`, `ProbeWithoutSlash` and `ProbeUpgrades` give its closed form, its failure and its effect on the cache. |
| ImageHandler.ReturnWebpContent | Web.Images.WebP/RequestHandler.cs:50-56 | No contract of its own: appends the bytes and the `Content-type: image/webp` header. `WarmWebpHit` and `ColdWebpHit` give the resulting response exactly. |
| ImageHandler.NotFound | Web.Images.WebP/RequestHandler.cs:92-97 | No contract of its own: clears content and headers and sets 404. `NotFoundWhenNoCandidate` gives the resulting response exactly. |
| ImageHandler.ClearHeaders | Web.Images.WebP/RequestHandler.cs:22 | No contract of its own: drops the headers and records the clearing. |
| ImageHandler.ClearContent | Web.Images.WebP/RequestHandler.cs:23 | No contract of its own: drops the body and records the clearing. |
| ImageHandler.Redirect | Web.Images.WebP/RequestHandler.cs:88 | No contract of its own: appends the URL to the redirects. `ProbeRedirects` and `CachedFallbackRedirects` give the redirect lists. |
| ImageHandler.IsChrome | Web.Images.WebP/RequestHandler.cs:20 | No contract of its own: `IndexOfIgnoreCase(userAgent, "Chrome/") >= 0`. `IndexOfIgnoreCase` states when that holds. |
| ResolutionCache.Key | Web.Images.WebP/RequestHandler.cs:105 | The key, the lower-cased URI, has the URI's length. |
| ResolutionCache.GetFromCache | Web.Images.WebP/RequestHandler.cs:103-106 | No contract of its own: the entry under the lower-cased URI. `KeyIgnoresCase` shows URIs equal up to case read the same entry; the contracts of `WithContent`, `WithFallback` and `Evict` say what it returns after each change. |
| ResolutionCache.WithContent | Web.Images.WebP/RequestHandler.cs:108-118 | The keys become the old keys plus the request's key. Every other entry is unchanged. The request's entry holds the new payload and its old fallback (none if the entry is new), and it is bound to `filePath`. |
| ResolutionCache.WithFallback | Web.Images.WebP/RequestHandler.cs:120-131 | The keys become the old keys plus the request's key. Every other entry is unchanged. The request's entry holds the new fallback URL and its old payload, and it is bound to `filePath`. |
| ResolutionCache.Evict | Web.Images.WebP/RequestHandler.cs:117 | A key survives if and only if its entry is bound to another path. Surviving entries are unchanged. |
| ResolutionCache.KeyIgnoresCase | Web.Images.WebP/RequestHandler.cs:103-106 | URIs equal up to case read the same entry and the same binding. |
| ResolutionCache.UpsertSeenAcrossCase | Web.Images.WebP/RequestHandler.cs:108-131 | An upsert under one URI is visible under every URI equal to it up to case. |
| ResolutionCache.FallbackOverwrites | Web.Images.WebP/RequestHandler.cs:120-131 | Two fallback upserts in a row leave the second URL and the second binding. The binding is not cumulative. |
| ResolutionCache.UpsertsSetDisjointFields | Web.Images.WebP/RequestHandler.cs:108-131 | A payload upsert and a fallback upsert, in either order, leave an entry holding both. |
| ResolutionCache.UpsertsUpgrade | Web.Images.WebP/RequestHandler.cs:108-131 | Each upsert creates or upgrades only its own entry: no key is dropped and a field once set stays set. |
| ResolutionCache.EvictDropsBoundEntry | Web.Images.WebP/RequestHandler.cs:117 | After eviction of the path an entry is bound to, that entry is gone, both fields. |
| ResolutionCache.EvictKeepsOtherEntries | Web.Images.WebP/RequestHandler.cs:129 | An entry bound to another path survives eviction unchanged. |
| Text.LowerChar | Web.Images.WebP/RequestHandler.cs:105 | ASCII letters map to lower case, by +32; every other character is kept. |
| Text.ToLower | Web.Images.WebP/RequestHandler.cs:105 | The length is kept and every character is folded. |
| Text.ToLowerIdempotent | Web.Images.WebP/RequestHandler.cs:105 | Folding twice is folding once. |
| Text.ToLowerSuffix | Web.Images.WebP/RequestHandler.cs:16 | Folding commutes with dropping a prefix. |
| Text.EndsWithIgnoreCaseFolded | Web.Images.WebP/RequestHandler.cs:16 | The case-insensitive `.webp` test gives the same answer on a URI and on its cache key. |
| Text.EndsWithIgnoreCaseRespectsFolding | Web.Images.WebP/RequestHandler.cs:16 | URIs equal up to case agree on the case-insensitive suffix test. |
| Text.EndsWithIgnoreCase | Web.Images.WebP/RequestHandler.cs:16 | No contract of its own: the folded last characters equal the folded suffix. `EndsWithIgnoreCaseFolded` and `EndsWithIgnoreCaseRespectsFolding` state its properties. |
| Text.IndexOfFrom | Web.Images.WebP/RequestHandler.cs:20 | Returns the first case-insensitive match at or after `from`, or -1 when there is none, in both directions. |
| Text.IndexOfIgnoreCase | Web.Images.WebP/RequestHandler.cs:20 | A result that is not negative is the first match. A negative result is -1, and then no position matches. |
| Text.LastIndexOf | Web.Images.WebP/RequestHandler.cs:82 | Returns the last position holding the character, or -1 exactly when it does not occur. |
| Text.IsNullOrWhiteSpace | Web.Images.WebP/RequestHandler.cs:68 | No contract of its own: null, or every character is `Char.IsWhiteSpace`. `TargetUrlNotWhiteSpace` shows a redirect target never is. |
| Paths.LastDirectorySeparator | Web.Images.WebP/RequestHandler.cs:61 | Returns the last '\\' or '/', or -1; nothing after it is a separator. |
| Paths.LastNameSeparator | Web.Images.WebP/RequestHandler.cs:83 | Returns the last '\\', '/' or ':', or -1; nothing after it is one. |
| Paths.DirectoryName | Web.Images.WebP/RequestHandler.cs:61 | No contract of its own: the path before its last directory separator, keeping a root's separator. `GetImagePathDirectory`, `GetImagePathDirectoryAtRoot` and `GetImagePathWithoutDirectory` relate it to the candidate. |
| Paths.FileName | Web.Images.WebP/RequestHandler.cs:83 | No contract of its own: `FileNameIsLastSegment` states it. |
| Paths.FileNameWithoutExtension | Web.Images.WebP/RequestHandler.cs:61 | No contract of its own: `FileNameWithoutExtensionIsStem` states it. |
| Paths.Combine | Web.Images.WebP/RequestHandler.cs:61 | No contract of its own: `FileNameOfCombine` gives the file name of the result. |
| Paths.GetImagePath | Web.Images.WebP/RequestHandler.cs:59-62 | No contract of its own. `GetImagePathName` gives its file name and stem; `GetImagePathDirectory`, `GetImagePathDirectoryAtRoot` and `GetImagePathWithoutDirectory` give its directory in the three cases. |
| Paths.FileNameIsLastSegment | Web.Images.WebP/RequestHandler.cs:83 | `GetFileName` returns the separator-free suffix that follows the last separator. |
| Paths.FileNameWithoutExtensionIsStem | Web.Images.WebP/RequestHandler.cs:61 | `GetFileNameWithoutExtension` returns the file name up to its last '.', or the whole name when it has no '.'. |
| Paths.FileNameAfterSeparator | Web.Images.WebP/RequestHandler.cs:61 | A separator-free name appended after a separator is the file name. |
| Paths.StemOfDottedName | Web.Images.WebP/RequestHandler.cs:61 | The name without extension of `stem.ext`, where `ext` has no '.', is `stem`. |
| Paths.FileNameOfCombine | Web.Images.WebP/RequestHandler.cs:61 | `Path.Combine(dir, name)` has file name `name` for a separator-free name. |
| Paths.GetImagePathName | Web.Images.WebP/RequestHandler.cs:59-62 | The candidate's file name is the `.webp` file's stem, '.', then the extension; its own stem is the original stem. |
| Paths.GetImagePathDirectory | Web.Images.WebP/RequestHandler.cs:59-62 | For a directory that does not end in a separator, the candidate is `dir\name` and lies in the `.webp` file's directory. |
| Paths.GetImagePathDirectoryAtRoot | Web.Images.WebP/RequestHandler.cs:59-62 | For a file in a root directory (`C:\` or `\`), the candidate is the root followed by its name and lies in the same root. |
| Paths.GetImagePathWithoutDirectory | Web.Images.WebP/RequestHandler.cs:59-62 | For a bare file name (`a.webp`), the candidate is the bare name `stem.ext` (`a.png`) and also has no directory. |
| Paths.StaticUrl | Web.Images.WebP/RequestHandler.cs:82-83 | Defined exactly when the URI contains '/'. Otherwise `Substring` throws. |
| Paths.UrlDirectory | Web.Images.WebP/RequestHandler.cs:82 | No contract of its own: the URI up to its last '/', none without one. `StaticUrl` and `StaticUrlIsSibling` state its use. |
| Paths.StaticUrlIsSibling | Web.Images.WebP/RequestHandler.cs:82-83 | The redirect URL lies in the request's URL directory and ends in the candidate's file name. |
| HandlerProperties.PassThrough | Web.Images.WebP/RequestHandler.cs:16-47 | A URI that does not end in `.webp`, in any case, leaves the response and the cache untouched. |
| HandlerProperties.QueryStringPassesThrough | Web.Images.WebP/RequestHandler.cs:16 | The suffix test is on the whole URI, so `a.webp?x=1` passes through. |
| HandlerProperties.NullUserAgentFails | Web.Images.WebP/RequestHandler.cs:20 | A `.webp` request without a user agent throws before touching the response or the cache. |
| HandlerProperties.WarmWebpHit | Web.Images.WebP/RequestHandler.cs:20-28 | A Chrome client with a cached payload gets a cleared response holding exactly those bytes and one `Content-type: image/webp` header. The cache is unchanged, and the result does not depend on the path or the file system. |
| HandlerProperties.ColdWebpHit | Web.Images.WebP/RequestHandler.cs:31-35 | For a Chrome client with no cached payload and the WebP file present, the response holds the file's bytes. The entry holds them, keeps its fallback and is bound to the `.webp` path. No other entry changes. |
| HandlerProperties.ColdThenWarm | Web.Images.WebP/RequestHandler.cs:25-35 | After a cold hit, any later Chrome request for the same URI up to case gets the identical response from the cache, whatever the file system holds, and changes nothing. |
| HandlerProperties.ProcessEntersFallback | Web.Images.WebP/RequestHandler.cs:37-46 | Proof step, one unfolding of the definition: a non-Chrome client, or a Chrome client with neither a cached payload nor the file, reaches `ImageFallback`. The response is cleared only for Chrome. |
| HandlerProperties.FallbackIsProbe | Web.Images.WebP/RequestHandler.cs:72-98 | Proof step, one unfolding of the definition: without a usable cached fallback, `ImageFallback` is the probe loop, then 404 if nothing was found. |
| HandlerProperties.CachedFallbackRedirects | Web.Images.WebP/RequestHandler.cs:66-71 | A cached fallback that is not null or white space is redirected to, with no probing and no cache change. |
| HandlerProperties.ProbeStepMiss | Web.Images.WebP/RequestHandler.cs:78-80 | Proof step, one unfolding of the definition: a missing candidate changes nothing and the loop moves on. |
| HandlerProperties.ProbeStepHit | Web.Images.WebP/RequestHandler.cs:80-89 | Proof step, one unfolding of the definition: a present candidate is cached as the fallback, bound to the `.webp` path, and then redirected to. The loop moves on. |
| HandlerProperties.ProbeRedirectsToEveryHit | Web.Images.WebP/RequestHandler.cs:74-90 | With '/' in the URI, the loop redirects to the URL of every present candidate, in probe order. The cache keeps the last one. |
| HandlerProperties.ProbeWithoutSlash | Web.Images.WebP/RequestHandler.cs:82 | With no '/' in the URI, the first present candidate throws. Nothing is cached or redirected, and the response fails exactly when some candidate exists. |
| HandlerProperties.ProbeUpgrades | Web.Images.WebP/RequestHandler.cs:74-90 | The loop only creates or upgrades the request's own entry. |
| HandlerProperties.LastFallbackWins | Web.Images.WebP/RequestHandler.cs:86 | Fallback upserts for successive hits leave the last hit's URL. |
| HandlerProperties.HitsInProbeOrder | Web.Images.WebP/RequestHandler.cs:74-80 | The candidates found are png, jpg, jpeg, in that order, each included exactly when its file exists. |
| HandlerProperties.LastHitWins | Web.Images.WebP/RequestHandler.cs:76-90 | The loop does not break, so the last hit is jpeg if present, else jpg, else png. |
| HandlerProperties.TargetUrlShape | Web.Images.WebP/RequestHandler.cs:78-83 | A redirect target is the URI's directory, '/', the `.webp` file's stem, '.', then the extension. |
| HandlerProperties.TargetUrlNotWhiteSpace | Web.Images.WebP/RequestHandler.cs:68 | A cached target is never null or white space, so a later request uses it. |
| HandlerProperties.ProbeRedirects | Web.Images.WebP/RequestHandler.cs:72-98 | With no usable cached fallback and some candidate present, the request is redirected to every present candidate in order, with no 404. The cache gets the last one, bound to the `.webp` path. |
| HandlerProperties.NotFoundWhenNoCandidate | Web.Images.WebP/RequestHandler.cs:92-97 | With no usable cached fallback and no candidate, the response is cleared with status 404, no redirect, and the cache is unchanged. |
| HandlerProperties.UriWithoutSlashFails | Web.Images.WebP/RequestHandler.cs:82 | With no '/' in the URI and some candidate present, the request throws without any redirect or cache change. |
| HandlerProperties.ProbeThenCachedRedirect | Web.Images.WebP/RequestHandler.cs:66-89 | After a successful probe, a later non-Chrome request for the same URI up to case is redirected straight to the cached last target, whatever the file system holds. |
| HandlerProperties.RequestOnlyUpgrades | Web.Images.WebP/RequestHandler.cs:12-48 | A request only creates or upgrades the entry under its own key. No entry is dropped, no other entry changes, and a set field stays set. |
| HandlerProperties.InvalidationForcesReload | Web.Images.WebP/RequestHandler.cs:31-35 | After the host evicts the file a payload entry was bound to, the next Chrome request reads the file again and caches the new bytes. |
| HandlerProperties.KeyExamples | Web.Images.WebP/RequestHandler.cs:105 | `.WEBP` and `.webp` URIs share a key; URIs that differ in their query string do not. |

## Left out

- HTTP plumbing. `HttpContext`, the output stream and its `Flush`, and `Server.MapPath` are not modelled: the mapped path is an input. `IsReusable` (line 10) is a constant with no behaviour.
- `Response.Redirect(url)` ends the response in ASP.NET by throwing `ThreadAbortException`, so in deployment the first candidate found would be redirected to and cached. The model records each redirect as an event and keeps the loop as written: it does not break, and the last candidate found is cached and redirected to last.
- `CacheDependency`. The file watcher and eviction under memory pressure are host behaviour. The model records only the bound path; `Invalidate` and `Evict` are the assumed effect of a file change.
- The dependency of a fallback entry is the `.webp` path, passed at line 86, not the matched legacy file. The model follows the code.
- Concurrency. Each request is one atomic step; racing requests are not modelled.
- `ImageCacheModel` is a shared mutable object in the host cache. `UpdateCache*` mutate it before re-inserting it. The model treats entries as values. This gives the same cache contents, since the object is re-inserted at once, but it does not model a cached object being mutated while another request holds it.
- Culture-sensitive casing. `ToLower()` and `InvariantCultureIgnoreCase` are modelled as ASCII case folding; other Unicode case mappings are not modelled.
- Windows path details. There is no separator normalisation, no UNC or device paths, no drive-relative paths (`C:name`, whose root .NET takes to be `C:`), no `null` from `GetDirectoryName` on a bare root, and no invalid-character exceptions. The file system is case-sensitive in the model, while NTFS is not.
- I/O failures. `File.ReadAllBytes` failing after `File.Exists` succeeded, and other I/O exceptions, are not modelled. The file system is a snapshot taken for the whole request.
- How an escaped exception is turned into an HTTP error response is left to the host. The model flags only that one escaped.
