/**
 * The handler's per-URL memo in the host's process-wide cache. Each entry is an
 * ImageCacheModel (an optional WebP payload and an optional fallback URL) bound to
 * one file-system path, the CacheDependency it was last inserted with. Keys are
 * the lower-cased absolute request URI.
 *
 * The functions here are the values the cache takes; the class in ImageHandler
 * holds the cache and its methods are proved to produce exactly these values.
 */
module ResolutionCache {
  import opened Wrappers
  import Text

  type Bytes = seq<bv8>

  /** ImageCacheModel: None stands for a null field. */
  datatype ImageCacheModel = ImageCacheModel(webpContent: Option<Bytes>, fallbackImage: Option<string>)

  /** A cache entry together with the path its CacheDependency watches. */
  datatype CacheSlot = CacheSlot(item: ImageCacheModel, dependency: string)

  type Cache = map<string, CacheSlot>

  /** `new ImageCacheModel()`: both fields null. */
  const EmptyItem := ImageCacheModel(None, None)

  /** The cache key: `AbsoluteUri.ToLower()`. */
  function Key(absoluteUri: string): (k: string)
    ensures |k| == |absoluteUri|
  {
    Text.ToLower(absoluteUri)
  }

  /** RequestHandler.GetFromCache: the entry under the request's key, if any. */
  function GetFromCache(c: Cache, absoluteUri: string): Option<ImageCacheModel> {
    if Key(absoluteUri) in c then Some(c[Key(absoluteUri)].item) else None
  }

  /** The path the entry under the request's key is bound to, if any. */
  function DependencyOf(c: Cache, absoluteUri: string): Option<string> {
    if Key(absoluteUri) in c then Some(c[Key(absoluteUri)].dependency) else None
  }

  /** The cache after RequestHandler.UpdateCacheContent: the request's entry (new
      if absent) gets the payload, keeps its fallback and is rebound to `filePath`. */
  function WithContent(c: Cache, absoluteUri: string, content: Bytes, filePath: string): (r: Cache)
    ensures r.Keys == c.Keys + {Key(absoluteUri)}
    ensures forall k :: k in c && k != Key(absoluteUri) ==> r[k] == c[k]
    ensures GetFromCache(r, absoluteUri) == Some(ImageCacheModel(Some(content), GetFromCache(c, absoluteUri).GetOr(EmptyItem).fallbackImage))
    ensures DependencyOf(r, absoluteUri) == Some(filePath)
  {
    var item := GetFromCache(c, absoluteUri).GetOr(EmptyItem);
    c[Key(absoluteUri) := CacheSlot(item.(webpContent := Some(content)), filePath)]
  }

  /** The cache after RequestHandler.UpdateCacheFallback: the request's entry (new
      if absent) gets the fallback URL, keeps its payload and is rebound to `filePath`. */
  function WithFallback(c: Cache, absoluteUri: string, fallbackUrl: string, filePath: string): (r: Cache)
    ensures r.Keys == c.Keys + {Key(absoluteUri)}
    ensures forall k :: k in c && k != Key(absoluteUri) ==> r[k] == c[k]
    ensures GetFromCache(r, absoluteUri) == Some(ImageCacheModel(GetFromCache(c, absoluteUri).GetOr(EmptyItem).webpContent, Some(fallbackUrl)))
    ensures DependencyOf(r, absoluteUri) == Some(filePath)
  {
    var item := GetFromCache(c, absoluteUri).GetOr(EmptyItem);
    c[Key(absoluteUri) := CacheSlot(item.(fallbackImage := Some(fallbackUrl)), filePath)]
  }

  /** The cache once the host has noticed a change to `path`: every entry bound
      to `path` is gone, whole; every other entry is untouched. This is the
      effect CacheDependency is assumed to have; the handler does not do it. */
  function Evict(c: Cache, path: string): (r: Cache)
    ensures forall k :: k in r <==> k in c && c[k].dependency != path
    ensures forall k :: k in r ==> r[k] == c[k]
  {
    map k | k in c && c[k].dependency != path :: c[k]
  }

  /** Requests whose URIs differ only in case share one entry. */
  lemma KeyIgnoresCase(c: Cache, u1: string, u2: string)
    requires Text.EqualsIgnoreCase(u1, u2)
    ensures GetFromCache(c, u1) == GetFromCache(c, u2)
    ensures DependencyOf(c, u1) == DependencyOf(c, u2)
  {
  }

  /** An upsert under one URI is seen by every URI that differs from it only in case. */
  lemma UpsertSeenAcrossCase(c: Cache, u1: string, u2: string, content: Bytes, url: string, path: string)
    requires Text.EqualsIgnoreCase(u1, u2)
    ensures GetFromCache(WithContent(c, u1, content, path), u2).Some?
    ensures GetFromCache(WithContent(c, u1, content, path), u2).value.webpContent == Some(content)
    ensures GetFromCache(WithFallback(c, u1, url, path), u2).Some?
    ensures GetFromCache(WithFallback(c, u1, url, path), u2).value.fallbackImage == Some(url)
  {
    KeyIgnoresCase(WithContent(c, u1, content, path), u1, u2);
    KeyIgnoresCase(WithFallback(c, u1, url, path), u1, u2);
  }

  /** A later fallback upsert for the same URI replaces the earlier one's URL and
      binding, keeping the payload: the binding is not cumulative. */
  lemma FallbackOverwrites(c: Cache, u: string, first: string, second: string, d1: string, d2: string)
    ensures WithFallback(WithFallback(c, u, first, d1), u, second, d2) == WithFallback(c, u, second, d2)
  {
    var once := WithFallback(c, u, first, d1);
    var lhs := WithFallback(once, u, second, d2);
    var rhs := WithFallback(c, u, second, d2);
    assert lhs.Keys == rhs.Keys;
    assert lhs[Key(u)] == rhs[Key(u)];
  }

  /** The two upserts touch different fields: in either order the entry ends
      with both the payload and the fallback URL. */
  lemma UpsertsSetDisjointFields(c: Cache, u: string, content: Bytes, url: string, d1: string, d2: string)
    ensures GetFromCache(WithFallback(WithContent(c, u, content, d1), u, url, d2), u)
         == Some(ImageCacheModel(Some(content), Some(url)))
    ensures GetFromCache(WithContent(WithFallback(c, u, url, d2), u, content, d1), u)
         == Some(ImageCacheModel(Some(content), Some(url)))
  {
  }

  /** `after` differs from `before` at most in the entry under `key`, which is
      created or upgraded: a key is never dropped and a field once set stays set. */
  ghost predicate UpgradesAt(before: Cache, after: Cache, key: string) {
    && before.Keys <= after.Keys <= before.Keys + {key}
    && (forall k :: k in before && k != key ==> after[k] == before[k])
    && (key in before && before[key].item.webpContent.Some? ==> after[key].item.webpContent.Some?)
    && (key in before && before[key].item.fallbackImage.Some? ==> after[key].item.fallbackImage.Some?)
  }

  lemma UpgradesAtReflexive(c: Cache, key: string)
    ensures UpgradesAt(c, c, key)
  {
  }

  lemma UpgradesAtTransitive(c1: Cache, c2: Cache, c3: Cache, key: string)
    requires UpgradesAt(c1, c2, key) && UpgradesAt(c2, c3, key)
    ensures UpgradesAt(c1, c3, key)
  {
  }

  /** Both upserts only ever create or upgrade their entry. */
  lemma UpsertsUpgrade(c: Cache, u: string, content: Bytes, url: string, path: string)
    ensures UpgradesAt(c, WithContent(c, u, content, path), Key(u))
    ensures UpgradesAt(c, WithFallback(c, u, url, path), Key(u))
  {
  }

  /** Eviction of a path drops the entry bound to it, whatever fields it had. */
  lemma EvictDropsBoundEntry(c: Cache, u: string, path: string)
    requires DependencyOf(c, u) == Some(path)
    ensures GetFromCache(Evict(c, path), u) == None
  {
  }

  /** Eviction of a path keeps an entry bound to another path. */
  lemma EvictKeepsOtherEntries(c: Cache, u: string, path: string)
    requires DependencyOf(c, u).Some? && DependencyOf(c, u) != Some(path)
    ensures GetFromCache(Evict(c, path), u) == GetFromCache(c, u)
  {
  }
}
