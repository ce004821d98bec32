/** The media controller: uploaded files as the API lists them, the list
    limit, and the choice of the uploaded file in a multipart request.
    `resolve` stands for URL resolution against the request origin. */
module Media {
  import opened Wrappers
  import opened Text
  import opened Js

  const DefaultLimit: int := 50

  /** `Number(query.limit)` when finite and positive, else 50; there is no
      upper bound. */
  function MediaLimit(query: Value): (r: int)
    ensures r > 0
    ensures ToNumber(Get(query, "limit")).Num? && ToNumber(Get(query, "limit")).n > 0 ==> r == ToNumber(Get(query, "limit")).n
    ensures !(ToNumber(Get(query, "limit")).Num? && ToNumber(Get(query, "limit")).n > 0) ==> r == DefaultLimit
  {
    var n := ToNumber(Get(query, "limit"));
    if n.Num? && n.n > 0 then n.n else DefaultLimit
  }

  /** A missing limit, and one above the article controllers' bound of 100,
      are not clamped. */
  lemma LimitIsUnbounded(k: nat)
    ensures MediaLimit(Obj(map[])) == DefaultLimit
    ensures MediaLimit(Obj(map["limit" := Num(k + 1)])) == k + 1
  {
    assert Get(Obj(map[]), "limit") == Undefined;
  }

  /** A file as the API returns it. */
  datatype MediaView = MediaView(id: string, url: Value, title: Value, altText: Value, mimeType: Value, size: Value,
    width: Value, height: Value, uploadedAt: Value, uploadedBy: string)

  /** `toAbsoluteUrl(origin, file.url)` on whatever the stored url is: a
      falsy one is returned as it is, a string is resolved, and any other
      value makes `startsWith` throw. */
  function MediaUrl(origin: string, url: Value, resolve: (string, string) -> Option<string>): (r: Result<Value, string>)
    ensures !Truthy(url) ==> r == Ok(url)
    ensures url.Str? ==> r == Ok(Str(ToAbsoluteUrl(origin, url.s, resolve)))
    ensures r.Err? <==> Truthy(url) && !url.Str?
  {
    if !Truthy(url) then Ok(url)
    else if url.Str? then Ok(Str(ToAbsoluteUrl(origin, url.s, resolve)))
    else Err("TypeError: url.startsWith is not a function")
  }

  /** `normalizeMedia`: `None` for a falsy file; otherwise the title is the
      name, else the hash, else `file`, and the alternative text the stored
      one, else the caption, else the name, else empty. */
  function NormalizeMedia(file: Value, origin: string, resolve: (string, string) -> Option<string>)
    : (r: Result<Option<MediaView>, string>)
    ensures !Truthy(file) ==> r == Ok(None)
    ensures Truthy(file) ==> (r.Err? <==> MediaUrl(origin, Get(file, "url"), resolve).Err?)
    ensures r.Ok? && r.value.Some? ==> Truthy(r.value.value.title) && r.value.value.uploadedBy == "strapi"
    ensures r.Ok? && r.value.Some? ==> r.value.value.id == ToStr(Get(file, "id"))
  {
    if !Truthy(file) then Ok(None)
    else match MediaUrl(origin, Get(file, "url"), resolve)
      case Err(e) => Err(e)
      case Ok(url) =>
        Ok(Some(MediaView(
          ToStr(Get(file, "id")),
          url,
          Or(Or(Get(file, "name"), Get(file, "hash")), Str("file")),
          Or(Or(Or(Get(file, "alternativeText"), Get(file, "caption")), Get(file, "name")), Str("")),
          Get(file, "mime"),
          Get(file, "size"),
          Get(file, "width"),
          Get(file, "height"),
          Get(file, "createdAt"),
          "strapi")))
  }

  /** The title is the first truthy of name and hash, else `file`; the
      alternative text the first truthy of the stored text, the caption and
      the name, else empty. */
  lemma TitleAndAltText(file: Value, origin: string, resolve: (string, string) -> Option<string>)
    requires Truthy(file) && NormalizeMedia(file, origin, resolve).Ok?
    ensures var v := NormalizeMedia(file, origin, resolve).value.value;
      (Truthy(Get(file, "name")) ==> v.title == Get(file, "name"))
      && (!Truthy(Get(file, "name")) && Truthy(Get(file, "hash")) ==> v.title == Get(file, "hash"))
      && (!Truthy(Get(file, "name")) && !Truthy(Get(file, "hash")) ==> v.title == Str("file"))
      && (Truthy(Get(file, "alternativeText")) ==> v.altText == Get(file, "alternativeText"))
      && (!Truthy(Get(file, "alternativeText")) && Truthy(Get(file, "caption")) ==> v.altText == Get(file, "caption"))
      && (!Truthy(Get(file, "alternativeText")) && !Truthy(Get(file, "caption")) && Truthy(Get(file, "name")) ==>
            v.altText == Get(file, "name"))
      && (!Truthy(Get(file, "alternativeText")) && !Truthy(Get(file, "caption")) && !Truthy(Get(file, "name")) ==>
            v.altText == Str(""))
  {
  }

  /** `find`: the normalized files, falsy entries dropped, in the order
      stored; one file whose url is not a string fails the whole list. */
  function MediaList(entities: seq<Value>, origin: string, resolve: (string, string) -> Option<string>)
    : (r: Result<seq<MediaView>, string>)
    ensures r.Ok? ==> |r.value| <= |entities|
    ensures r.Ok? ==> |r.value| == |Truthies(entities)|
  {
    if entities == [] then Ok([])
    else
      match NormalizeMedia(entities[0], origin, resolve)
      case Err(e) => Err(e)
      case Ok(head) =>
        match MediaList(entities[1..], origin, resolve)
        case Err(e) => Err(e)
        case Ok(tail) => Ok(if head.Some? then [head.value] + tail else tail)
  }

  /** The truthy entries of a sequence, in order. */
  function Truthies(s: seq<Value>): (r: seq<Value>)
    ensures |r| <= |s|
    ensures forall i :: 0 <= i < |r| ==> Truthy(r[i])
  {
    if s == [] then [] else if Truthy(s[0]) then [s[0]] + Truthies(s[1..]) else Truthies(s[1..])
  }

  /** The listed files are the truthy entries, each normalized, in order. */
  lemma {:induction false} MediaListIsTruthies(entities: seq<Value>, origin: string, resolve: (string, string) -> Option<string>)
    requires MediaList(entities, origin, resolve).Ok?
    ensures var r := MediaList(entities, origin, resolve).value;
      forall i :: 0 <= i < |r| ==> NormalizeMedia(Truthies(entities)[i], origin, resolve) == Ok(Some(r[i]))
  {
    if entities != [] {
      MediaListIsTruthies(entities[1..], origin, resolve);
      var r := MediaList(entities, origin, resolve).value;
      var tail := MediaList(entities[1..], origin, resolve).value;
      if Truthy(entities[0]) {
        assert Truthies(entities) == [entities[0]] + Truthies(entities[1..]);
        assert r == [NormalizeMedia(entities[0], origin, resolve).value.value] + tail;
        forall i | 0 <= i < |r|
          ensures NormalizeMedia(Truthies(entities)[i], origin, resolve) == Ok(Some(r[i]))
        {
          if i > 0 {
            assert r[i] == tail[i - 1];
            assert Truthies(entities)[i] == Truthies(entities[1..])[i - 1];
          }
        }
      } else {
        assert r == tail;
      }
    }
  }

  // ---------------------------------------------------------------------------
  // Uploads

  /** `getFileFromRequest` on `ctx.request.files`: `files.file`, else
      `files.files`; `null` when neither is truthy; the first element of an
      array (`undefined` for an empty one). */
  function FileFromRequest(files: Value): (r: Value)
    ensures !Truthy(Get(Or(files, Obj(map[])), "file")) && !Truthy(Get(Or(files, Obj(map[])), "files")) ==> r == Null
    ensures Truthy(Get(files, "file")) && !Get(files, "file").Arr? ==> r == Get(files, "file")
    ensures Truthy(Get(files, "file")) && Get(files, "file").Arr? ==>
      r == (if Get(files, "file").items == [] then Undefined else Get(files, "file").items[0])
    ensures !Truthy(Get(files, "file")) && Truthy(Get(files, "files")) ==>
      r == (if !Get(files, "files").Arr? then Get(files, "files")
            else if Get(files, "files").items == [] then Undefined else Get(files, "files").items[0])
  {
    var bag := Or(files, Obj(map[]));
    var candidate := Or(Get(bag, "file"), Get(bag, "files"));
    if !Truthy(candidate) then Null
    else if candidate.Arr? then (if candidate.items == [] then Undefined else candidate.items[0])
    else candidate
  }

  /** `files.file` wins over `files.files` whenever it is truthy. */
  lemma FileWinsOverFiles(files: Value)
    requires Truthy(Get(files, "file"))
    ensures FileFromRequest(files) == FileFromRequest(Obj(map["file" := Get(files, "file")]))
  {
    assert Get(Obj(map["file" := Get(files, "file")]), "file") == Get(files, "file");
  }

  /** `create` refuses a request without a usable file; an empty array
      counts as none, and so does an array whose first element is falsy. */
  function UploadCandidate(files: Value): (r: Result<Value, string>)
    ensures r.Err? <==> !Truthy(FileFromRequest(files))
    ensures r.Err? ==> r.error == "Missing file"
    ensures r.Ok? ==> r.value == FileFromRequest(files)
  {
    var file := FileFromRequest(files);
    if !Truthy(file) then Err("Missing file") else Ok(file)
  }

  /** An empty array of files is refused. */
  lemma EmptyArrayIsMissing()
    ensures UploadCandidate(Obj(map["file" := Arr([])])).Err?
  {
    assert Get(Obj(map["file" := Arr([])]), "file") == Arr([]);
  }
}
