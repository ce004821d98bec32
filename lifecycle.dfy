/** The article lifecycle hooks that run before a record is created or
    updated. They work in place on the `data` record of the event: flags are
    mirrored between their two spellings, a slug is derived, missing SEO fields
    are filled in, the headlines are checked, publishing is restricted to editors,
    the Discover flag is computed, a published article must carry a wide
    enough featured image, a meta description and a short headline, and the
    canonical URL is set. The database is an oracle: the request user, the
    stored articles' slugs, the widths of the upload files and the categories. */
module Lifecycle {
  import opened Wrappers
  import opened Text
  import opened Js
  import Slug
  import Seo
  import Html
  import opened Headline


  const MinImageWidth: int := 1200

  datatype LifecycleError =
    | SlugExists
    | BadHeadline(reason: HeadlineError)
    | NotEditor
    | ImageRequired
    | ImageNotFound
    | ImageTooNarrow
    | MetaDescriptionRequired
    | ShortHeadlineRequired

  /** What the hooks read from outside the event. */
  datatype Store = Store(
    user: Value,                    // the request user, `null` when there is none
    articleSlugs: map<int, string>, // stored articles: id to slug
    fileWidths: map<int, int>,      // upload files: id to width (0 when the width is not a number)
    categories: map<int, Value>,    // stored categories by id
    siteUrl: string)

  // ---------------------------------------------------------------------------
  // Publishing rights

  /** `user?.role?.type || user?.role?.name || ''`: a truthy role type, else
      a truthy role name, else the empty string; never a falsy non-string. */
  function PublisherRole(user: Value): (r: Value)
    ensures Truthy(Get(Get(user, "role"), "type")) ==> r == Get(Get(user, "role"), "type")
    ensures !Truthy(Get(Get(user, "role"), "type")) && Truthy(Get(Get(user, "role"), "name")) ==>
      r == Get(Get(user, "role"), "name")
    ensures Truthy(r) || r == Str("")
    ensures Nullish(user) ==> r == Str("")
  {
    Or(Or(Get(Get(user, "role"), "type"), Get(Get(user, "role"), "name")), Str(""))
  }

  /** `ensureEditorPublish`: only a publishing request can fail, and only
      for a user whose role is known and is neither admin nor editor. */
  function EnsureEditorPublish(user: Value, shouldPublish: bool): (r: Outcome<LifecycleError>)
    ensures r.Fail? ==> r.error == NotEditor
    ensures !shouldPublish ==> r.Pass?
    ensures Nullish(user) ==> r.Pass?
    ensures r.Fail? <==>
      (shouldPublish && Truthy(PublisherRole(user))
       && ToStr(PublisherRole(user)) != "admin" && ToStr(PublisherRole(user)) != "editor")
  {
    var roleType := PublisherRole(user);
    if shouldPublish && Truthy(roleType) && ToStr(roleType) != "admin" && ToStr(roleType) != "editor"
    then Fail(NotEditor) else Pass
  }

  /** A user whose role type is admin or editor may publish, whatever the role name. */
  lemma EditorsMayPublish(user: Value, roleType: string)
    requires roleType == "admin" || roleType == "editor"
    requires Get(Get(user, "role"), "type") == Str(roleType)
    ensures EnsureEditorPublish(user, true).Pass?
  {
  }

  // ---------------------------------------------------------------------------
  // Media ids and the featured image

  /** `resolveMediaId`: a number as it is, a non-blank string converted, an
      object's numeric or string `id`, or the id of its first `connect`
      entry; `undefined` otherwise. */
  function ResolveMediaId(v: Value): (r: Value)
    ensures r.Undefined? || r.Num? || r.NaN? || r.Infinity?
    ensures v.Num? ==> r == v
    ensures Nullish(v) || v.Bool? ==> r.Undefined?
  {
    if Nullish(v) then Undefined
    else if v.Num? || v.NaN? || v.Infinity? then v
    else if v.Str? then (if Trim(v.s) != [] then ToNumber(v) else Undefined)
    else if v.Obj? || v.Arr? then
      var id := Get(v, "id");
      if id.Num? || id.NaN? || id.Infinity? then id
      else if id.Str? then ToNumber(id)
      else
        var connect := Get(v, "connect");
        if connect.Arr? && |connect.items| > 0 && Truthy(Get(connect.items[0], "id"))
        then ToNumber(Get(connect.items[0], "id"))
        else Undefined
    else Undefined
  }

  /** A media id given as the decimal text of a number, or as an object
      carrying that text or number, resolves to the number. */
  lemma ResolveMediaIdOfPrintedId(n: int)
    ensures ResolveMediaId(Str(IntToString(n))) == Num(n)
    ensures ResolveMediaId(Obj(map["id" := Str(IntToString(n))])) == Num(n)
    ensures ResolveMediaId(Obj(map["id" := Num(n)])) == Num(n)
  {
    var t := IntToString(n);
    NumberOfPrintedInt(n);
    TrimIdentity(t);
    assert ResolveMediaId(Str(t)) == ToNumber(Str(t));
    assert Get(Obj(map["id" := Str(t)]), "id") == Str(t);
    assert Get(Obj(map["id" := Num(n)]), "id") == Num(n);
  }

  /** `validateFeaturedImage`: an id is required, it must name an upload
      file, and the file must be at least 1200 pixels wide. */
  function ValidateFeaturedImage(files: map<int, int>, mediaId: Value): (r: Outcome<LifecycleError>)
    ensures r.Pass? <==> Truthy(mediaId) && mediaId.Num? && mediaId.n in files && files[mediaId.n] >= MinImageWidth
    ensures !Truthy(mediaId) ==> r == Fail(ImageRequired)
    ensures r == Fail(ImageTooNarrow) ==> mediaId.Num? && mediaId.n in files && files[mediaId.n] < MinImageWidth
  {
    if !Truthy(mediaId) then Fail(ImageRequired)
    else if !(mediaId.Num? && mediaId.n in files) then Fail(ImageNotFound)
    else if files[mediaId.n] < MinImageWidth then Fail(ImageTooNarrow)
    else Pass
  }

  /** `existing?.featured_image?.id ? Number(existing.featured_image.id) : undefined`. */
  function ExistingImageId(existing: Value): Value {
    var id := Get(Get(existing, "featured_image"), "id");
    if Truthy(id) then ToNumber(id) else Undefined
  }

  /** The featured image id the hooks use: the one in the request, else the stored one. */
  function FeaturedImageId(d: Record, existing: Value): Value {
    Or(ResolveMediaId(Field(d, "featured_image")), ExistingImageId(existing))
  }

  /** `resolveDiscoverEligibility`: the featured image is a file at least
      1200 pixels wide, so an article is eligible for Discover exactly when
      its featured image would pass the publishing check. */
  function DiscoverEligible(files: map<int, int>, d: Record, existing: Value): (r: bool)
    ensures r <==> ValidateFeaturedImage(files, FeaturedImageId(d, existing)).Pass?
  {
    var mediaId := FeaturedImageId(d, existing);
    Truthy(mediaId) && mediaId.Num? && mediaId.n in files && files[mediaId.n] >= MinImageWidth
  }

  // ---------------------------------------------------------------------------
  // Slugs and canonical URLs

  /** The slug `beforeCreate`/`beforeUpdate` derive from the title when none is given. */
  function WithDerivedSlug(d: Record): (r: Record)
    ensures forall k :: k != "slug" ==> Field(r, k) == Field(d, k)
    ensures Truthy(Field(d, "slug")) ==> r == d
    ensures !Truthy(Field(d, "slug")) && Truthy(Field(d, "title")) ==>
      Field(r, "slug").Str? && Slug.IsLifecycleSlug(Field(r, "slug").s)
  {
    if !Truthy(Field(d, "slug")) && Truthy(Field(d, "title")) then
      d["slug" := Str(Slug.ToSlug(Field(d, "title")))]
    else d
  }

  /** `ensureUniqueSlug` of the lifecycle: a non-empty slug is taken when
      another stored article (any article when `excludeId` is falsy) holds it. */
  predicate SlugTaken(articles: map<int, string>, slug: Value, excludeId: Value) {
    Truthy(slug)
    && exists id :: id in articles && articles[id] == ToStr(slug) && (!Truthy(excludeId) || excludeId != Num(id))
  }

  /** An article never conflicts with its own stored slug. */
  lemma OwnSlugIsFree(articles: map<int, string>, id: int, slug: string)
    requires id != 0
    requires forall other :: other in articles && other != id ==> articles[other] != slug
    ensures !SlugTaken(articles, Str(slug), Num(id))
  {
  }

  /** `deriveCanonicalUrl`. */
  function CanonicalFor(site: string, categorySlug: Value, slug: Value): (r: string)
    ensures site + "/" <= r
    ensures |r| == |site| + 1 + |ToStr(slug)| + (if Truthy(categorySlug) then |ToStr(categorySlug)| + 1 else 0)
    ensures r[|r| - |ToStr(slug)|..] == ToStr(slug)
    ensures Truthy(categorySlug) ==>
      r[|site| + 1..|site| + 1 + |ToStr(categorySlug)|] == ToStr(categorySlug) && r[|site| + 1 + |ToStr(categorySlug)|] == '/'
  {
    if Truthy(categorySlug) then site + "/" + ToStr(categorySlug) + "/" + ToStr(slug)
    else site + "/" + ToStr(slug)
  }

  /** The category slug `setCanonical` uses: the stored category's slug, or
      when it has none and a category id is known, the slug of that category. */
  function CategorySlugFor(store: Store, d: Record, existing: Value): (r: Value)
    ensures Truthy(Get(Get(existing, "category"), "slug")) ==> r == Get(Get(existing, "category"), "slug")
    ensures r == Get(Get(existing, "category"), "slug") || r.Str?
    ensures (!Truthy(Get(Get(existing, "category"), "slug")) && Field(d, "category").Num?
             && Field(d, "category").n != 0 && Field(d, "category").n in store.categories
             && Truthy(Get(store.categories[Field(d, "category").n], "slug"))) ==>
      r == Str(ToStr(Get(store.categories[Field(d, "category").n], "slug")))
  {
    var c := Field(d, "category");
    var storedId := Get(Get(existing, "category"), "id");
    var categoryId := Or(Or(ResolveMediaId(c), if Truthy(c) && (c.Obj? || c.Arr?) then Get(c, "id") else Undefined),
                         if Truthy(storedId) then storedId else Undefined);
    var storedSlug := Get(Get(existing, "category"), "slug");
    if Truthy(categoryId) && !Truthy(storedSlug) then
      var category := if categoryId.Num? && categoryId.n in store.categories then store.categories[categoryId.n] else Null;
      if Truthy(Get(category, "slug")) then Str(ToStr(Get(category, "slug"))) else Str("")
    else storedSlug
  }

  /** `setCanonical`: with a slug, `canonicalUrl` is set and `seo.canonicalURL`
      is filled in with the same URL when it is missing, every other key of
      an existing `seo` object being kept; without a slug nothing changes. */
  function WithCanonical(d: Record, existing: Value, store: Store): (r: Record)
    ensures forall k :: k != "canonicalUrl" && k != "seo" ==> Field(r, k) == Field(d, k)
    ensures !Truthy(Or(Field(d, "slug"), Get(existing, "slug"))) ==> r == d
    ensures Truthy(Or(Field(d, "slug"), Get(existing, "slug"))) ==>
      Field(r, "canonicalUrl")
        == Str(CanonicalFor(store.siteUrl, CategorySlugFor(store, d, existing), Or(Field(d, "slug"), Get(existing, "slug"))))
    ensures Truthy(Or(Field(d, "slug"), Get(existing, "slug"))) && (!Truthy(Field(d, "seo")) || Field(d, "seo").Obj?) ==>
      Field(r, "seo").Obj? && Truthy(Get(Field(r, "seo"), "canonicalURL"))
    ensures Truthy(Get(Field(d, "seo"), "canonicalURL")) ==> Field(r, "seo") == Field(d, "seo")
    ensures (Truthy(Or(Field(d, "slug"), Get(existing, "slug")))
             && (!Truthy(Field(d, "seo")) || (Field(d, "seo").Obj? && !Truthy(Get(Field(d, "seo"), "canonicalURL"))))) ==>
      Get(Field(r, "seo"), "canonicalURL") == Field(r, "canonicalUrl")
    ensures Field(d, "seo").Obj? ==>
      Field(r, "seo").Obj? && forall k :: k != "canonicalURL" ==> Get(Field(r, "seo"), k) == Get(Field(d, "seo"), k)
  {
    var slug := Or(Or(Field(d, "slug"), Get(existing, "slug")), Str(""));
    if !Truthy(slug) then d
    else
      var url := CanonicalFor(store.siteUrl, CategorySlugFor(store, d, existing), slug);
      var d1 := d["canonicalUrl" := Str(url)];
      var d2 := if !Truthy(Field(d1, "seo")) then d1["seo" := Obj(map[])] else d1;
      var seo := Field(d2, "seo");
      if seo.Obj? && !Truthy(Get(seo, "canonicalURL")) then d2["seo" := Obj(seo.props["canonicalURL" := Str(url)])]
      else d2
  }

  /** The lifecycle's canonical URL of an article with a category is the one
      the article controller builds from the same two slugs. */
  lemma CanonicalAgreesWithController(site: string, categorySlug: string, slug: string)
    requires categorySlug != [] && slug != []
    requires NoSpaceAtEdges(categorySlug) && categorySlug[0] != '/' && categorySlug[|categorySlug| - 1] != '/'
    requires NoSpaceAtEdges(slug) && slug[0] != '/' && slug[|slug| - 1] != '/'
    ensures CanonicalFor(site, Str(categorySlug), Str(slug)) == Seo.ArticleCanonicalUrl(site, categorySlug, slug)
  {
    Seo.PathPartIdentity(categorySlug);
    Seo.PathPartIdentity(slug);
  }

  // ---------------------------------------------------------------------------
  // Flags and SEO fields

  /** `data.k !== undefined`. */
  predicate Defined(d: Record, k: string) { Field(d, k) != Undefined }

  /** The two `syncFlags` statements for one flag: the spelling that is
      missing copies the truth value of the one that is present. */
  function SyncPair(d: Record, a: string, b: string): (r: Record)
    requires a != b
    ensures forall k :: Defined(d, k) ==> Field(r, k) == Field(d, k)
    ensures forall k :: k != a && k != b ==> Field(r, k) == Field(d, k)
    ensures Defined(d, a) && !Defined(d, b) ==> Field(r, b) == Bool(Truthy(Field(d, a)))
    ensures Defined(d, b) && !Defined(d, a) ==> Field(r, a) == Bool(Truthy(Field(d, b)))
    ensures Defined(d, a) != Defined(d, b) ==> Defined(r, a) && Defined(r, b) && Truthy(Field(r, a)) == Truthy(Field(r, b))
    ensures !Defined(d, a) && !Defined(d, b) ==> r == d
  {
    if Defined(d, a) && !Defined(d, b) then d[b := Bool(Truthy(Field(d, a)))]
    else if Defined(d, b) && !Defined(d, a) then d[a := Bool(Truthy(Field(d, b)))]
    else d
  }

  /** `syncFlags`: both spellings of a flag that was given in one spelling
      only are defined and agree; defined flags and all other fields are kept. */
  function SyncedFlags(d: Record): (r: Record)
    ensures forall k :: Defined(d, k) ==> Field(r, k) == Field(d, k)
    ensures forall k :: k !in {"isFeatured", "is_featured", "isBreaking", "is_breaking"} ==>
      Field(r, k) == Field(d, k)
    ensures Defined(d, "isFeatured") != Defined(d, "is_featured") ==>
      Truthy(Field(r, "isFeatured")) == Truthy(Field(r, "is_featured"))
    ensures Defined(d, "isBreaking") != Defined(d, "is_breaking") ==>
      Truthy(Field(r, "isBreaking")) == Truthy(Field(r, "is_breaking"))
  {
    var d1 := SyncPair(d, "isFeatured", "is_featured");
    var r := SyncPair(d1, "isBreaking", "is_breaking");
    assert Defined(d, "isFeatured") != Defined(d, "is_featured") ==>
      Field(r, "isFeatured") == Field(d1, "isFeatured") && Field(r, "is_featured") == Field(d1, "is_featured");
    r
  }

  /** `if (!data[k]) data[k] = v`. */
  function SetIfFalsy(d: Record, k: string, v: Value): (r: Record)
    ensures forall j :: j != k ==> Field(r, j) == Field(d, j)
    ensures Truthy(Field(d, k)) ==> r == d
    ensures !Truthy(Field(d, k)) ==> Field(r, k) == v
  {
    if Truthy(Field(d, k)) then d else d[k := v]
  }

  /** The five fields `fillSeoFields` may fill. */
  const SeoFields: set<string> := {"seo_title", "meta_description", "seoTitle", "seoDescription", "short_headline"}

  /** `data.title || existing?.title || ''`, and likewise for the excerpt. */
  function Fallback(d: Record, existing: Value, k: string): Value {
    Or(Or(Field(d, k), Get(existing, k)), Str(""))
  }

  /** The meta description derived from the excerpt. */
  function DerivedDescription(d: Record, existing: Value): (r: string)
    ensures |r| <= Seo.SeoDescriptionMax
  {
    Seo.Truncate(Html.StripHtml(TextOf(Fallback(d, existing, "excerpt"))), Seo.SeoDescriptionMax)
  }

  /** The short headline derived from the title. */
  function DerivedShortHeadline(d: Record, existing: Value): (r: string)
    ensures |r| <= Seo.ShortHeadlineMax
  {
    Seo.Truncate(TextOf(Fallback(d, existing, "title")), Seo.ShortHeadlineMax)
  }

  /** The five `if (!data[k]) data[k] = ...` statements of `fillSeoFields`,
      given the title and the two texts it derives. */
  function FillSteps(d: Record, existing: Value, title: Value, description: Value, shortHeadline: Value): (r: Record)
    ensures forall k :: k !in SeoFields ==> Field(r, k) == Field(d, k)
    ensures forall k :: Truthy(Field(d, k)) ==> Field(r, k) == Field(d, k)
    ensures !Truthy(Field(d, "meta_description")) ==>
      Field(r, "meta_description") == Or(Get(existing, "meta_description"), description)
    ensures !Truthy(Field(d, "short_headline")) ==>
      Field(r, "short_headline") == Or(Get(existing, "short_headline"), shortHeadline)
  {
    var d1 := SetIfFalsy(d, "seo_title", Or(Get(existing, "seo_title"), title));
    var d2 := SetIfFalsy(d1, "meta_description", Or(Get(existing, "meta_description"), description));
    var d3 := SetIfFalsy(d2, "seoTitle", Or(Or(Get(existing, "seoTitle"), Field(d2, "seo_title")), title));
    var d4 := SetIfFalsy(d3, "seoDescription",
      Or(Or(Get(existing, "seoDescription"), Field(d3, "meta_description")), description));
    SetIfFalsy(d4, "short_headline", Or(Get(existing, "short_headline"), shortHeadline))
  }

  /** The five steps of `FillSteps`, one after another. */
  lemma FillStepsInOrder(d0: Record, existing: Value, title: Value, description: Value, shortHeadline: Value)
    ensures var d1 := SetIfFalsy(d0, "seo_title", Or(Get(existing, "seo_title"), title));
      var d2 := SetIfFalsy(d1, "meta_description", Or(Get(existing, "meta_description"), description));
      var d3 := SetIfFalsy(d2, "seoTitle", Or(Or(Get(existing, "seoTitle"), Field(d2, "seo_title")), title));
      var d4 := SetIfFalsy(d3, "seoDescription",
        Or(Or(Get(existing, "seoDescription"), Field(d3, "meta_description")), description));
      FillSteps(d0, existing, title, description, shortHeadline)
        == SetIfFalsy(d4, "short_headline", Or(Get(existing, "short_headline"), shortHeadline))
  {
  }

  /** `fillSeoFields`: each falsy SEO field takes the stored value, else a
      derived one; truthy fields and all other fields are kept. */
  function FilledSeo(d: Record, existing: Value): (r: Record)
    ensures forall k :: k !in SeoFields ==> Field(r, k) == Field(d, k)
    ensures forall k :: Truthy(Field(d, k)) ==> Field(r, k) == Field(d, k)
    ensures !Truthy(Field(d, "meta_description")) && !Truthy(Get(existing, "meta_description")) ==>
      Field(r, "meta_description") == Str(DerivedDescription(d, existing))
    ensures !Truthy(Field(d, "short_headline")) && !Truthy(Get(existing, "short_headline")) ==>
      Field(r, "short_headline") == Str(DerivedShortHeadline(d, existing))
    ensures !Truthy(Field(d, "short_headline")) && Truthy(Get(existing, "short_headline")) ==>
      Field(r, "short_headline") == Get(existing, "short_headline")
  {
    FillSteps(d, existing, Fallback(d, existing, "title"),
      Str(DerivedDescription(d, existing)), Str(DerivedShortHeadline(d, existing)))
  }

  // ---------------------------------------------------------------------------
  // The hooks

  /** `validateHeadlines(data)`. */
  function HeadlineCheck(d: Record): (r: Outcome<LifecycleError>)
    ensures r.Pass? <==> ValidateHeadlines(TextOf(Field(d, "title")), TextOf(Field(d, "short_headline"))).Pass?
    ensures r.Fail? ==> r.error.BadHeadline?
  {
    match ValidateHeadlines(TextOf(Field(d, "title")), TextOf(Field(d, "short_headline")))
    case Pass => Pass
    case Fail(e) => Fail(BadHeadline(e))
  }

  /** `shouldPublishFromData`: `publishedAt` is neither undefined, null nor
      the empty string. Every truthy value asks to publish, and so do the
      falsy `false`, `0` and `NaN`. */
  predicate ShouldPublish(d: Record)
    ensures ShouldPublish(d) ==> "publishedAt" in d
    ensures Truthy(Field(d, "publishedAt")) ==> ShouldPublish(d)
    ensures ShouldPublish(d) && !Truthy(Field(d, "publishedAt")) ==>
      Field(d, "publishedAt") in {Bool(false), Num(0), NaN}
  {
    var p := Field(d, "publishedAt");
    !p.Undefined? && !p.Null? && p != Str("")
  }

  /** The publishing checks, in order: featured image, meta description, short headline. */
  function PublishGate(files: map<int, int>, mediaId: Value, hasMeta: bool, hasShort: bool): (r: Outcome<LifecycleError>)
    ensures r.Pass? <==> ValidateFeaturedImage(files, mediaId).Pass? && hasMeta && hasShort
    ensures ValidateFeaturedImage(files, mediaId).Fail? ==> r == ValidateFeaturedImage(files, mediaId)
    ensures r == Fail(MetaDescriptionRequired) <==> ValidateFeaturedImage(files, mediaId).Pass? && !hasMeta
    ensures r == Fail(ShortHeadlineRequired) <==> ValidateFeaturedImage(files, mediaId).Pass? && hasMeta && !hasShort
  {
    var image := ValidateFeaturedImage(files, mediaId);
    if image.Fail? then image
    else if !hasMeta then Fail(MetaDescriptionRequired)
    else if !hasShort then Fail(ShortHeadlineRequired)
    else Pass
  }

  /** The outcome of a hook and the event data as the hook leaves it (the
      hooks change the data in place before they throw). */
  datatype HookRun = HookRun(outcome: Outcome<LifecycleError>, data: Record)

  /** `data.discoverEligible = await resolveDiscoverEligibility(...)`. */
  function WithDiscoverFlag(d: Record, files: map<int, int>, existing: Value): (r: Record)
    ensures forall k :: k != "discoverEligible" ==> Field(r, k) == Field(d, k)
    ensures Field(r, "discoverEligible") == Bool(DiscoverEligible(files, d, existing))
  {
    d["discoverEligible" := Bool(DiscoverEligible(files, d, existing))]
  }

  /** The steps both hooks share after the slug check: fill the SEO fields,
      then go on with `AfterFill`. */
  function AfterSlugCheck(d1: Record, store: Store, existing: Value, gateStored: bool): HookRun {
    AfterFill(FilledSeo(d1, existing), store, existing, gateStored)
  }

  /** Check the headlines and the publishing right, compute the Discover
      flag, then go on with `AfterFlag`; the publishing checks run when the
      data publishes or `gateStored` holds. A bad headline fails first; a
      hook that passes with the gate open has checked the featured image,
      the meta description, the short headline and, when the data
      publishes, the publisher's role. */
  function AfterFill(d2: Record, store: Store, existing: Value, gateStored: bool): (r: HookRun)
    ensures HeadlineCheck(d2).Fail? ==> r.outcome == HeadlineCheck(d2)
    ensures r.outcome != Fail(SlugExists)
    ensures (r.outcome.Pass? && (ShouldPublish(d2) || gateStored)) ==>
      var id := FeaturedImageId(d2, existing);
      id.Num? && id.n in store.fileWidths && store.fileWidths[id.n] >= MinImageWidth
      && (Truthy(Field(r.data, "meta_description")) || Truthy(Get(existing, "meta_description")))
      && (Truthy(Field(r.data, "short_headline")) || Truthy(Get(existing, "short_headline")))
    ensures (r.outcome.Pass? && ShouldPublish(d2)) ==> EnsureEditorPublish(store.user, true).Pass?
  {
    var headlines := HeadlineCheck(d2);
    if headlines.Fail? then HookRun(headlines, d2)
    else
      var publish := ShouldPublish(d2);
      var editor := EnsureEditorPublish(store.user, publish);
      if editor.Fail? then HookRun(editor, d2)
      else
        var d3 := WithDiscoverFlag(d2, store.fileWidths, existing);
        assert FeaturedImageId(d3, existing) == FeaturedImageId(d2, existing);
        AfterFlag(d3, store, existing, publish || gateStored)
  }

  /** The publishing checks when `gate` holds, then `setCanonical`. Without
      the gate the hook passes; passing with the gate means a featured image
      at least 1200 pixels wide, a meta description and a short headline,
      which `setCanonical` does not touch; a failing check leaves the data
      as it was. */
  function AfterFlag(d3: Record, store: Store, existing: Value, gate: bool): (r: HookRun)
    ensures !gate ==> r.outcome.Pass?
    ensures r.outcome != Fail(SlugExists)
    ensures r.outcome.Fail? ==> r.data == d3
    ensures r.outcome.Pass? ==> r.data == WithCanonical(d3, existing, store)
    ensures (gate && r.outcome.Pass?) ==>
      var id := FeaturedImageId(d3, existing);
      id.Num? && id.n in store.fileWidths && store.fileWidths[id.n] >= MinImageWidth
      && (Truthy(Field(r.data, "meta_description")) || Truthy(Get(existing, "meta_description")))
      && (Truthy(Field(r.data, "short_headline")) || Truthy(Get(existing, "short_headline")))
  {
    var checks :=
      if gate then
        PublishGate(store.fileWidths, FeaturedImageId(d3, existing),
          Truthy(Field(d3, "meta_description")) || Truthy(Get(existing, "meta_description")),
          Truthy(Field(d3, "short_headline")) || Truthy(Get(existing, "short_headline")))
      else Pass;
    if checks.Fail? then HookRun(checks, d3)
    else HookRun(Pass, WithCanonical(d3, existing, store))
  }

  /** `beforeCreate`. */
  function CreateRun(d0: Record, store: Store): (r: HookRun)
    ensures r.outcome == Fail(SlugExists) <==>
      SlugTaken(store.articleSlugs, Field(WithDerivedSlug(SyncedFlags(d0)), "slug"), Undefined)
  {
    var d1 := WithDerivedSlug(SyncedFlags(d0));
    if SlugTaken(store.articleSlugs, Field(d1, "slug"), Undefined) then HookRun(Fail(SlugExists), d1)
    else AfterSlugCheck(d1, store, Null, false)
  }

  /** `beforeUpdate`, given the stored record `existing` of the article `whereId`. */
  function UpdateRun(d0: Record, store: Store, whereId: Value, existing: Value): (r: HookRun)
    ensures r.outcome == Fail(SlugExists) <==>
      SlugTaken(store.articleSlugs, Or(Field(WithDerivedSlug(SyncedFlags(d0)), "slug"), Get(existing, "slug")), whereId)
  {
    var d1 := WithDerivedSlug(SyncedFlags(d0));
    if SlugTaken(store.articleSlugs, Or(Field(d1, "slug"), Get(existing, "slug")), whereId)
    then HookRun(Fail(SlugExists), d1)
    else AfterSlugCheck(d1, store, existing, Truthy(Get(existing, "publishedAt")))
  }

  /** The fields the steps before the publishing checks leave untouched. */
  lemma PrefixKeepsPublishedAt(d0: Record, existing: Value)
    ensures Field(FilledSeo(WithDerivedSlug(SyncedFlags(d0)), existing), "publishedAt") == Field(d0, "publishedAt")
  {
    var d1 := SyncedFlags(d0);
    assert "publishedAt" !in {"isFeatured", "is_featured", "isBreaking", "is_breaking"};
    assert Field(d1, "publishedAt") == Field(d0, "publishedAt");
    var d2 := WithDerivedSlug(d1);
    assert Field(d2, "publishedAt") == Field(d1, "publishedAt");
    assert "publishedAt" !in SeoFields;
  }

  /** A created article that is published passed every publishing check. */
  lemma PublishedCreateIsComplete(d0: Record, store: Store)
    requires CreateRun(d0, store).outcome.Pass?
    requires ShouldPublish(d0)
    ensures var d := CreateRun(d0, store).data;
      Truthy(Field(d, "meta_description")) && Truthy(Field(d, "short_headline"))
      && EnsureEditorPublish(store.user, true).Pass?
  {
    PrefixKeepsPublishedAt(d0, Null);
  }

  /** An update of an article that is or becomes published passed every
      publishing check, taking the stored fields into account. */
  lemma PublishedUpdateIsComplete(d0: Record, store: Store, whereId: Value, existing: Value)
    requires UpdateRun(d0, store, whereId, existing).outcome.Pass?
    requires ShouldPublish(d0) || Truthy(Get(existing, "publishedAt"))
    ensures var d := UpdateRun(d0, store, whereId, existing).data;
      (Truthy(Field(d, "meta_description")) || Truthy(Get(existing, "meta_description")))
      && (Truthy(Field(d, "short_headline")) || Truthy(Get(existing, "short_headline")))
  {
    PrefixKeepsPublishedAt(d0, existing);
  }

  /** The event whose `data` record the hooks change in place. */
  class ArticleEvent {
    var data: Record

    constructor(data0: Record)
      ensures data == data0
    {
      data := data0;
    }

    /** `syncFlags(data)`. */
    method SyncFlags()
      modifies this
      ensures data == SyncedFlags(old(data))
    {
      if Defined(data, "isFeatured") && !Defined(data, "is_featured") {
        data := data["is_featured" := Bool(Truthy(Field(data, "isFeatured")))];
      }
      if Defined(data, "is_featured") && !Defined(data, "isFeatured") {
        data := data["isFeatured" := Bool(Truthy(Field(data, "is_featured")))];
      }
      if Defined(data, "isBreaking") && !Defined(data, "is_breaking") {
        data := data["is_breaking" := Bool(Truthy(Field(data, "isBreaking")))];
      }
      if Defined(data, "is_breaking") && !Defined(data, "isBreaking") {
        data := data["isBreaking" := Bool(Truthy(Field(data, "is_breaking")))];
      }
    }

    /** `if (!data.slug && data.title) data.slug = toSlug(data.title)`. */
    method DeriveSlug()
      modifies this
      ensures data == WithDerivedSlug(old(data))
    {
      if !Truthy(Field(data, "slug")) && Truthy(Field(data, "title")) {
        data := data["slug" := Str(Slug.ToSlug(Field(data, "title")))];
      }
    }

    /** `fillSeoFields(data, existing)`. */
    method FillSeoFields(existing: Value)
      modifies this
      ensures data == FilledSeo(old(data), existing)
    {
      var d0 := data;
      var title := Fallback(d0, existing, "title");
      var description := Str(DerivedDescription(d0, existing));
      var shortHeadline := Str(DerivedShortHeadline(d0, existing));
      var d1 := SetIfFalsy(d0, "seo_title", Or(Get(existing, "seo_title"), title));
      var d2 := SetIfFalsy(d1, "meta_description", Or(Get(existing, "meta_description"), description));
      var d3 := SetIfFalsy(d2, "seoTitle", Or(Or(Get(existing, "seoTitle"), Field(d2, "seo_title")), title));
      var d4 := SetIfFalsy(d3, "seoDescription",
        Or(Or(Get(existing, "seoDescription"), Field(d3, "meta_description")), description));
      var d5 := SetIfFalsy(d4, "short_headline", Or(Get(existing, "short_headline"), shortHeadline));
      FillStepsInOrder(d0, existing, title, description, shortHeadline);
      data := d5;
    }

    /** `setCanonical(strapi, data, existing)`. */
    method SetCanonical(store: Store, existing: Value)
      modifies this
      ensures data == WithCanonical(old(data), existing, store)
    {
      var d := data;
      var slug := Or(Or(Field(d, "slug"), Get(existing, "slug")), Str(""));
      if Truthy(slug) {
        var canonicalUrl := CanonicalFor(store.siteUrl, CategorySlugFor(store, d, existing), slug);
        var d1 := d["canonicalUrl" := Str(canonicalUrl)];
        var d2 := d1;
        if !Truthy(Field(d1, "seo")) {
          d2 := d1["seo" := Obj(map[])];
        }
        var seo := Field(d2, "seo");
        var d3 := d2;
        if seo.Obj? && !Truthy(Get(seo, "canonicalURL")) {
          d3 := d2["seo" := Obj(seo.props["canonicalURL" := Str(canonicalUrl)])];
        }
        assert d3 == WithCanonical(d, existing, store);
        data := d3;
      }
    }

    /** The steps after the slug check, shared by both hooks. */
    method Finish(store: Store, existing: Value, gateStored: bool) returns (r: Outcome<LifecycleError>)
      modifies this
      ensures r == AfterSlugCheck(old(data), store, existing, gateStored).outcome
      ensures data == AfterSlugCheck(old(data), store, existing, gateStored).data
    {
      FillSeoFields(existing);
      r := CheckAndPublish(store, existing, gateStored);
    }

    /** `validateHeadlines`, `ensureEditorPublish`, the Discover flag, the
      publishing checks and `setCanonical`, in this order. */
    method CheckAndPublish(store: Store, existing: Value, gateStored: bool) returns (r: Outcome<LifecycleError>)
      modifies this
      ensures r == AfterFill(old(data), store, existing, gateStored).outcome
      ensures data == AfterFill(old(data), store, existing, gateStored).data
    {
      var d := data;
      r := HeadlineCheck(d);
      if r.Fail? {
        return;
      }
      var shouldPublish := ShouldPublish(d);
      r := EnsureEditorPublish(store.user, shouldPublish);
      if r.Fail? {
        return;
      }
      data := d["discoverEligible" := Bool(DiscoverEligible(store.fileWidths, d, existing))];
      r := PublishChecks(store, existing, shouldPublish || gateStored);
    }

    /** The publishing checks when `gate` holds, then `setCanonical`. */
    method PublishChecks(store: Store, existing: Value, gate: bool) returns (r: Outcome<LifecycleError>)
      modifies this
      ensures r == AfterFlag(old(data), store, existing, gate).outcome
      ensures data == AfterFlag(old(data), store, existing, gate).data
    {
      var d := data;
      r := Pass;
      if gate {
        var featuredImageId := FeaturedImageId(d, existing);
        r := ValidateFeaturedImage(store.fileWidths, featuredImageId);
        if r.Fail? {
          return;
        }
        if !Truthy(Field(d, "meta_description")) && !Truthy(Get(existing, "meta_description")) {
          r := Fail(MetaDescriptionRequired);
          return;
        }
        if !Truthy(Field(d, "short_headline")) && !Truthy(Get(existing, "short_headline")) {
          r := Fail(ShortHeadlineRequired);
          return;
        }
      }
      SetCanonical(store, existing);
    }

    /** `beforeCreate`. */
    method BeforeCreate(store: Store) returns (r: Outcome<LifecycleError>)
      modifies this
      ensures r == CreateRun(old(data), store).outcome
      ensures data == CreateRun(old(data), store).data
    {
      SyncFlags();
      DeriveSlug();
      if SlugTaken(store.articleSlugs, Field(data, "slug"), Undefined) {
        return Fail(SlugExists);
      }
      r := Finish(store, Null, false);
    }

    /** `beforeUpdate` of the article `whereId`, whose stored record is `existing`. */
    method BeforeUpdate(store: Store, whereId: Value, existing: Value) returns (r: Outcome<LifecycleError>)
      modifies this
      ensures r == UpdateRun(old(data), store, whereId, existing).outcome
      ensures data == UpdateRun(old(data), store, whereId, existing).data
    {
      ghost var d0 := data;
      SyncFlags();
      DeriveSlug();
      if SlugTaken(store.articleSlugs, Or(Field(data, "slug"), Get(existing, "slug")), whereId) {
        assert UpdateRun(d0, store, whereId, existing) == HookRun(Fail(SlugExists), data);
        return Fail(SlugExists);
      }
      ghost var d1 := data;
      r := Finish(store, existing, Truthy(Get(existing, "publishedAt")));
      assert UpdateRun(d0, store, whereId, existing) == AfterSlugCheck(d1, store, existing, Truthy(Get(existing, "publishedAt")));
    }
  }
}
