/** The `cache-control` middleware: after the response is built, a GET
    request gets a `Cache-Control` header chosen by its path. */
module CacheControl {
  import opened Wrappers
  import opened Text

  const UploadsHeader: string := "public, max-age=31536000, immutable"
  const PublicApiHeader: string := "public, max-age=300, s-maxage=600, stale-while-revalidate=600"
  const NoStore: string := "no-store"

  const AllowList: seq<string> := ["/api/articles", "/api/editorials", "/api/categories", "/api/authors", "/api/tags",
    "/api/settings"]

  /** The path is the entry itself or lies below it. */
  predicate UnderEntry(path: string, entry: string) {
    path == entry || StartsWith(path, entry + "/")
  }

  /** `allowList.some(...)`. */
  predicate IsAllowed(path: string)
    ensures IsAllowed(path) ==> StartsWith(path, "/api/") && |path| >= |"/api/tags"|
  {
    ApiEntries();
    exists i :: 0 <= i < |AllowList| && UnderEntry(path, AllowList[i])
  }

  /** Every entry lies under `/api/`, and the shortest is `/api/tags`. */
  lemma ApiEntries()
    ensures forall i :: 0 <= i < |AllowList| ==> StartsWith(AllowList[i], "/api/") && |AllowList[i]| >= |"/api/tags"|
  {
  }

  /** The header the middleware sets, `None` when it sets none. `verb` is the request method and `path` is
      `ctx.request.path`, the empty string when there is none. */
  function CacheHeader(verb: string, path: string): (r: Option<string>)
    ensures verb != "GET" ==> r.None?
    ensures StartsWith(path, "/admin") ==> r.None?
    ensures verb == "GET" && StartsWith(path, "/uploads") ==> r == Some(UploadsHeader)
    ensures verb == "GET" && StartsWith(path, "/api") ==>
      r == Some(if IsAllowed(path) then PublicApiHeader else NoStore)
    ensures !StartsWith(path, "/uploads") && !StartsWith(path, "/api") ==> r.None?
  {
    DistinctRoots(path);
    if verb != "GET" then None
    else if StartsWith(path, "/admin") then None
    else if StartsWith(path, "/uploads") then Some(UploadsHeader)
    else if StartsWith(path, "/api") then
      if IsAllowed(path) then Some(PublicApiHeader) else Some(NoStore)
    else None
  }

  /** No path lies under more than one of `/admin`, `/uploads` and `/api`. */
  lemma DistinctRoots(path: string)
    ensures StartsWith(path, "/admin") ==> !StartsWith(path, "/uploads") && !StartsWith(path, "/api")
    ensures StartsWith(path, "/uploads") ==> !StartsWith(path, "/api")
  {
    if StartsWith(path, "/admin") { assert path[1] == 'a' && path[2] == 'd'; }
    if StartsWith(path, "/uploads") { assert path[1] == 'u'; }
  }

  /** Every allow-list entry, and every path below one, is cached publicly. */
  lemma EntriesAreCached(i: nat, rest: string)
    requires i < |AllowList|
    ensures CacheHeader("GET", AllowList[i]) == Some(PublicApiHeader)
    ensures CacheHeader("GET", AllowList[i] + "/" + rest) == Some(PublicApiHeader)
  {
    var e := AllowList[i];
    assert e[..4] == "/api";
    DistinctRoots(e);
    var p := e + "/" + rest;
    assert p[..|e| + 1] == e + "/";
    assert p[..4] == e[..4];
    DistinctRoots(p);
    assert UnderEntry(e, AllowList[i]);
    assert UnderEntry(p, AllowList[i]);
  }

  /** A path that only extends an entry's name, like `/api/articlesX`, is
      not below the entry and is not cached. */
  lemma ExtendedNameIsNotCached(rest: string)
    requires rest != [] && rest[0] != '/'
    ensures CacheHeader("GET", "/api/articles" + rest) == Some(NoStore)
  {
    var p := "/api/articles" + rest;
    assert p[..4] == "/api";
    DistinctRoots(p);
    forall i | 0 <= i < |AllowList|
      ensures !UnderEntry(p, AllowList[i])
    {
      var e := AllowList[i];
      if i == 0 {
        assert p != e by { assert |p| > |e|; }
        assert p[|e|] == rest[0];
      } else {
        assert p[5] == 'a' && p[6] == 'r';
        assert e[5] != 'a' || e[6] != 'r';
        assert |e| > 6;
      }
    }
  }
}
