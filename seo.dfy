/** The search-engine fields the article and editorial controllers derive
    when an editor leaves them empty: truncated texts, the SEO title with the
    site brand, the meta description, the canonical URL and the reading time. */
module Seo {
  import opened Wrappers
  import opened Text
  import opened Js
  import opened Html
  import Slug

  const Ellipsis: char := '\U{2026}'
  const SeoTitleMax: nat := 60
  const SeoDescriptionMax: nat := 160
  const ShortHeadlineMax: nat := 110

  /** The English brand and its lower-case form that `hasBrand` searches for. */
  const Brand: string := "Rampur News"
  const BrandLower: string := "rampur news"
  const BrandHindi: string := "रामपुर न्यूज़"
  const BrandSuffix: string := " | Rampur News"

  const DefaultSiteUrl: string := "https://rampurnews.com"
  const ArticleDefaultDescription: string := "रामपुर न्यूज़ पर ताज़ा और विश्वसनीय खबरें पढ़ें।"
  /** A space and the Hindi word for minutes, after the reading time. */
  const MinutesWord: string := " मिनट"
  const EditorialDefaultDescription: string := "रामपुर न्यूज़ पर संपादकीय और विशेष लेख पढ़ें।"

  /** `r` is a prefix of `t` followed by the ellipsis. */
  predicate IsTruncationOf(r: string, t: string) {
    |r| >= 1 && r[|r| - 1] == Ellipsis && StartsWith(t, r[..|r| - 1])
  }

  /** `truncateText` (controllers): the trimmed text when it fits, otherwise
      its first `maxLength - 1` characters, trimmed at the end, and an ellipsis. */
  function Truncate(value: string, maxLength: nat): (r: string)
    ensures Trim(value) == [] ==> r == []
    ensures |Trim(value)| <= maxLength ==> r == Trim(value)
    ensures |Trim(value)| > maxLength ==> IsTruncationOf(r, Trim(value))
    ensures maxLength >= 1 ==> |r| <= maxLength
    ensures NoSpaceAtEdges(r)
  {
    var text := Trim(value);
    if text == [] then []
    else if |text| <= maxLength then text
    else
      CutShape(text, maxLength);
      Cut(text, maxLength)
  }

  /** The first `maxLength - 1` characters, trimmed at the end, and an ellipsis. */
  function Cut(text: string, maxLength: int): (r: string)
    ensures IsTruncationOf(r, text)
    ensures |r| <= Max(1, maxLength)
  {
    var m := Max(0, Min(|text|, maxLength - 1));
    var kept := TrimEnd(text[..m]);
    assert kept == text[..|kept|];
    var r := kept + [Ellipsis];
    assert r[..|r| - 1] == kept;
    r
  }

  lemma CutShape(text: string, maxLength: nat)
    requires text != [] && NoSpaceAtEdges(text) && |text| > maxLength
    ensures IsTruncationOf(Cut(text, maxLength), text)
    ensures maxLength >= 1 ==> |Cut(text, maxLength)| <= maxLength
    ensures NoSpaceAtEdges(Cut(text, maxLength))
  {
    var kept := TrimEnd(text[..Max(0, maxLength - 1)]);
    assert kept <= text;
    assert kept != [] ==> kept[0] == text[0];
    assert Cut(text, maxLength) == kept + [Ellipsis];
  }

  /** `truncate` (article lifecycle): the same, without the early return for
      empty text. For every length the lifecycle uses it agrees with the
      controllers' `truncateText`, so one definition serves both; a negative
      length leaves only the ellipsis. */
  function LifecycleTruncate(value: string, max: int): (r: string)
    ensures max >= 0 ==> r == Truncate(value, max)
    ensures max < 0 ==> r == [Ellipsis]
  {
    var text := Trim(value);
    if |text| <= max then text else Cut(text, max)
  }

  /** A truncated text is already short enough: truncating again changes nothing. */
  lemma TruncateIdempotent(value: string, maxLength: nat)
    requires maxLength >= 1
    ensures Truncate(Truncate(value, maxLength), maxLength) == Truncate(value, maxLength)
  {
    TrimIdentity(Truncate(value, maxLength));
  }

  // ---------------------------------------------------------------------------
  // SEO titles

  /** The trimmed title, or the Hindi brand name when it is blank. */
  function BaseTitle(title: string): (r: string)
    ensures r != [] && NoSpaceAtEdges(r)
  {
    if Trim(title) != [] then Trim(title) else BrandHindi
  }

  /** `hasBrand`: the title already names the site in English (any case) or in Hindi. */
  predicate HasBrand(base: string)
    ensures Contains(base, Brand) ==> HasBrand(base)
    ensures Contains(base, BrandHindi) ==> HasBrand(base)
  {
    if Contains(base, Brand) then
      BrandLowered(base);
      true
    else
      Contains(Lower(base), BrandLower) || Contains(base, BrandHindi)
  }

  lemma BrandLowered(base: string)
    requires Contains(base, Brand)
    ensures Contains(Lower(base), BrandLower)
  {
    BrandCharsLower();
    LowerKeepsContains(base, Brand, BrandLower);
  }

  /** A text that contains `p` contains, once lower-cased, the lower-cased
      `p` (given as `q`). */
  lemma LowerKeepsContains(s: string, p: string, q: string)
    requires Contains(s, p)
    requires |p| == |q| && forall j :: 0 <= j < |p| ==> LowerChar(p[j]) == q[j]
    ensures Contains(Lower(s), q)
  {
    var i :| 0 <= i <= |s| && StartsWith(s[i..], p);
    var low := Lower(s);
    forall j | 0 <= j < |q|
      ensures low[i..][j] == q[j]
    {
      assert s[i..][j] == p[j];
    }
    assert low[i..][..|q|] == q;
    assert StartsWith(low[i..], q);
  }

  lemma BrandCharsLower()
    ensures |Brand| == |BrandLower|
    ensures forall j :: 0 <= j < |Brand| ==> LowerChar(Brand[j]) == BrandLower[j]
  {
    forall j | 0 <= j < |Brand|
      ensures LowerChar(Brand[j]) == BrandLower[j]
    {
      if j == 0 || j == 7 {
        assert IsUpperAscii(Brand[j]);
      } else {
        assert Brand[j] == BrandLower[j] && !IsUpperAscii(Brand[j]);
      }
    }
  }

  /** `${core} | Rampur News` unless the title already names the site: the
      core is kept as the start, and the added suffix names the site. */
  function WithBrand(core: string, hasBrand: bool): (r: string)
    ensures StartsWith(r, core)
    ensures hasBrand ==> r == core
    ensures !hasBrand ==> HasBrand(r)
  {
    if hasBrand then core
    else
      var r := core + BrandSuffix;
      assert StartsWith(r[|core| + 3..], Brand);
      r
  }

  /** Whatever the title and the category, the title `buildSeoTitle` tries
      first names the site: the brand is added exactly when `hasBrand` finds
      none in the base title, and a brand in the base title stays in the core. */
  lemma BrandedTitleNamesSite(base: string, category: string)
    ensures HasBrand(WithBrand(ArticleCore(base, category), HasBrand(base)))
  {
    var core := ArticleCore(base, category);
    if HasBrand(base) {
      assert StartsWith(core, base);
      PrefixKeepsBrand(base, core);
    }
  }

  /** A text that starts with a title naming the site names it too. */
  lemma PrefixKeepsBrand(base: string, s: string)
    requires StartsWith(s, base) && HasBrand(base)
    ensures HasBrand(s)
  {
    if Contains(base, Brand) {
      ContainsInPrefix(s, base, Brand);
    } else if Contains(base, BrandHindi) {
      ContainsInPrefix(s, base, BrandHindi);
    } else {
      assert Contains(Lower(base), BrandLower);
      assert Lower(s)[..|base|] == Lower(base);
      ContainsInPrefix(Lower(s), Lower(base), BrandLower);
    }
  }

  /** An occurrence in a prefix is an occurrence in the whole text. */
  lemma ContainsInPrefix(s: string, t: string, p: string)
    requires StartsWith(s, t) && Contains(t, p)
    ensures Contains(s, p)
  {
    var i :| 0 <= i <= |t| && StartsWith(t[i..], p);
    assert s[i..][..|p|] == t[i..][..|p|];
  }



  /** The article title core: `${base} | ${category}`, or the base alone. */
  function ArticleCore(base: string, category: string): string {
    if category != [] then base + " | " + category else base
  }

  lemma JoinedNoSpaceAtEdges(a: string, sep: string, b: string)
    requires a != [] && NoSpaceAtEdges(a) && b != [] && NoSpaceAtEdges(b)
    ensures NoSpaceAtEdges(a + sep + b)
  {
    assert (a + sep + b)[0] == a[0];
    assert (a + sep + b)[|a + sep + b| - 1] == b[|b| - 1];
  }

  /** The title core and its branded form have no white space at their ends. */
  lemma CoreNoSpaceAtEdges(base: string, category: string, hasBrand: bool)
    requires base != [] && NoSpaceAtEdges(base) && NoSpaceAtEdges(category)
    ensures NoSpaceAtEdges(ArticleCore(base, category))
    ensures NoSpaceAtEdges(WithBrand(base, hasBrand))
  {
    if category != [] {
      JoinedNoSpaceAtEdges(base, " | ", category);
    }
    JoinedNoSpaceAtEdges(base, " | ", Brand);
  }

  /** The choice `buildSeoTitle` of the article controller makes for a base
      title, a category name and whether the title already names the site:
      the branded title when it fits in 60 characters, otherwise the unbranded
      core, otherwise the branded base title, cut down when nothing fits. */
  function ArticleTitleOf(base: string, category: string, hasBrand: bool): (r: string)
    requires base != [] && NoSpaceAtEdges(base) && NoSpaceAtEdges(category)
    ensures 0 < |r| <= SeoTitleMax
    ensures |WithBrand(ArticleCore(base, category), hasBrand)| <= SeoTitleMax ==>
      r == WithBrand(ArticleCore(base, category), hasBrand)
    ensures (|WithBrand(ArticleCore(base, category), hasBrand)| > SeoTitleMax
             && |ArticleCore(base, category)| <= SeoTitleMax) ==> r == ArticleCore(base, category)
    ensures hasBrand ==>
      StartsWith(ArticleCore(base, category), r) || IsTruncationOf(r, ArticleCore(base, category))
    ensures StartsWith(r, base) || IsTruncationOf(r, WithBrand(base, hasBrand))
  {
    var core := ArticleCore(base, category);
    var withBrand := WithBrand(core, hasBrand);
    CoreNoSpaceAtEdges(base, category, hasBrand);
    assert base <= core <= withBrand;
    if |withBrand| <= SeoTitleMax then withBrand
    else if |core| <= SeoTitleMax then
      TrimIdentity(core);
      Truncate(core, SeoTitleMax)
    else
      var baseWithBrand := WithBrand(base, hasBrand);
      if |baseWithBrand| <= SeoTitleMax then baseWithBrand
      else
        CutBrandedBase(base, core, hasBrand);
        Truncate(baseWithBrand, SeoTitleMax)
  }

  /** The last resort of `buildSeoTitle`: the branded base title, too long,
      is cut to a truncation of it, which for a title that names the site
      is also a truncation of the core. */
  lemma CutBrandedBase(base: string, core: string, hasBrand: bool)
    requires NoSpaceAtEdges(WithBrand(base, hasBrand)) && base <= core
    requires |WithBrand(base, hasBrand)| > SeoTitleMax
    ensures var r := Truncate(WithBrand(base, hasBrand), SeoTitleMax);
      0 < |r| <= SeoTitleMax && IsTruncationOf(r, WithBrand(base, hasBrand))
      && (hasBrand ==> IsTruncationOf(r, core))
  {
    var b := WithBrand(base, hasBrand);
    TrimIdentity(b);
    var r := Truncate(b, SeoTitleMax);
    assert hasBrand ==> r[..|r| - 1] <= core;
  }

  /** `buildSeoTitle` of the article controller. */
  function ArticleSeoTitle(title: string, categoryName: string): (r: string)
    ensures 0 < |r| <= SeoTitleMax
    ensures StartsWith(r, BaseTitle(title))
      || IsTruncationOf(r, WithBrand(BaseTitle(title), HasBrand(BaseTitle(title))))
  {
    ArticleTitleOf(BaseTitle(title), Trim(categoryName), HasBrand(BaseTitle(title)))
  }

  /** The Hindi label of an editorial type in its SEO title. */
  function EditorialTypeLabel(editorialType: string): string {
    if editorialType == "opinion" then "विचार"
    else if editorialType == "review" then "रिव्यू"
    else if editorialType == "interview" then "इंटरव्यू"
    else if editorialType == "special-report" then "स्पेशल रिपोर्ट"
    else "संपादकीय"
  }

  /** The choice `buildSeoTitle` of the editorial controller makes: the
      branded `title | type` when it fits, otherwise the branded base title,
      cut down when that does not fit either. */
  function EditorialTitleOf(base: string, typeLabel: string, hasBrand: bool): (r: string)
    requires base != [] && NoSpaceAtEdges(base)
    ensures 0 < |r| <= SeoTitleMax
    ensures |WithBrand(base + " | " + typeLabel, hasBrand)| <= SeoTitleMax ==>
      r == WithBrand(base + " | " + typeLabel, hasBrand)
    ensures |WithBrand(base + " | " + typeLabel, hasBrand)| > SeoTitleMax ==>
      r == WithBrand(base, hasBrand) || IsTruncationOf(r, WithBrand(base, hasBrand))
    ensures StartsWith(r, base) || IsTruncationOf(r, WithBrand(base, hasBrand))
  {
    var core := base + " | " + typeLabel;
    var withBrand := WithBrand(core, hasBrand);
    assert base <= core <= withBrand;
    if |withBrand| <= SeoTitleMax then withBrand
    else
      var baseWithBrand := WithBrand(base, hasBrand);
      if |baseWithBrand| <= SeoTitleMax then baseWithBrand
      else
        CoreNoSpaceAtEdges(base, [], hasBrand);
        TrimIdentity(baseWithBrand);
        Truncate(baseWithBrand, SeoTitleMax)
  }

  /** `buildSeoTitle` of the editorial controller. */
  function EditorialSeoTitle(title: string, editorialType: string): (r: string)
    ensures 0 < |r| <= SeoTitleMax
    ensures StartsWith(r, BaseTitle(title))
      || IsTruncationOf(r, WithBrand(BaseTitle(title), HasBrand(BaseTitle(title))))
  {
    EditorialTitleOf(BaseTitle(title), EditorialTypeLabel(editorialType), HasBrand(BaseTitle(title)))
  }

  // ---------------------------------------------------------------------------
  // Meta descriptions

  /** `buildSeoDescription`: the excerpt, else the text of the content, else
      the site's default sentence; at most 160 characters. */
  function SeoDescription(excerpt: string, content: string, default: string): (r: string)
    requires 0 < |default| <= SeoDescriptionMax
    ensures 0 < |r| <= SeoDescriptionMax
    ensures Trim(excerpt) != [] ==> r == Truncate(excerpt, SeoDescriptionMax)
    ensures Trim(excerpt) == [] && StripHtml(content) != [] ==> r == Truncate(StripHtml(content), SeoDescriptionMax)
    ensures Trim(excerpt) == [] && StripHtml(content) == [] ==> r == default
  {
    var fromExcerpt := Trim(excerpt);
    if fromExcerpt != [] then
      TrimIdempotent(excerpt);
      Truncate(fromExcerpt, SeoDescriptionMax)
    else
      var cleaned := StripHtml(content);
      if cleaned == [] then default
      else
        TrimIdentity(cleaned);
        Truncate(cleaned, SeoDescriptionMax)
  }

  lemma DefaultDescriptionsFit()
    ensures 0 < |ArticleDefaultDescription| <= SeoDescriptionMax
    ensures 0 < |EditorialDefaultDescription| <= SeoDescriptionMax
  {
  }

  // ---------------------------------------------------------------------------
  // Canonical URLs

  function DropLeadingSlashes(s: string): (r: string)
    ensures |r| <= |s| && r == s[|s| - |r|..]
    ensures r == [] || r[0] != '/'
  {
    if s != [] && s[0] == '/' then DropLeadingSlashes(s[1..]) else s
  }

  /** Only slashes. */
  predicate AllSlashes(t: string) {
    forall i :: 0 <= i < |t| ==> t[i] == '/'
  }

  /** `replace(/\/+$/, '')`: drops the trailing slashes, and only them. */
  function DropTrailingSlashes(s: string): (r: string)
    ensures |r| <= |s| && r == s[..|r|]
    ensures r == [] || r[|r| - 1] != '/'
    ensures AllSlashes(s[|r|..])
  {
    if s != [] && s[|s| - 1] == '/' then
      var r := DropTrailingSlashes(s[..|s| - 1]);
      assert s[|r|..] == s[..|s| - 1][|r|..] + ['/'];
      r
    else s
  }

  /** `String(v || '').trim().replace(/^\/+|\/+$/g, '')`. */
  function PathPart(v: string): (r: string)
    ensures r == [] || (r[0] != '/' && r[|r| - 1] != '/')
  {
    var t := DropLeadingSlashes(Trim(v));
    var r := DropTrailingSlashes(t);
    assert r != [] ==> r[0] == t[0];
    r
  }

  /** `SITE_URL`: the configured address, trimmed and without trailing
      slashes, or the production address when none is configured. */
  function SiteUrl(env: Option<string>): (r: string)
    ensures env.None? || Trim(env.value) == [] ==> r == DefaultSiteUrl
    ensures env.Some? && Trim(env.value) != [] ==> r == DropTrailingSlashes(Trim(env.value))
    ensures r == [] || r[|r| - 1] != '/'
  {
    if env.Some? && Trim(env.value) != [] then DropTrailingSlashes(Trim(env.value))
    else
      DefaultSiteUrlEnd();
      DefaultSiteUrl
  }

  /** The production address does not end in a slash. */
  lemma DefaultSiteUrlEnd()
    ensures DefaultSiteUrl != [] && DefaultSiteUrl[|DefaultSiteUrl| - 1] != '/'
  {
    assert DefaultSiteUrl[|DefaultSiteUrl| - 1] == 'm';
  }

  /** `buildCanonicalUrl` of the article controller: `${SITE_URL}/${category}/${slug}`. */
  function ArticleCanonicalUrl(site: string, categorySlug: string, articleSlug: string): (r: string)
    ensures r == [] <==> PathPart(categorySlug) == [] || PathPart(articleSlug) == []
    ensures r != [] ==> r == site + "/" + PathPart(categorySlug) + "/" + PathPart(articleSlug)
  {
    var c := PathPart(categorySlug);
    var s := PathPart(articleSlug);
    if c == [] || s == [] then [] else site + "/" + c + "/" + s
  }

  /** `r` starts with `site`, then one slash, the part `c`, and one more
      slash: no slash is doubled at either joint. */
  predicate SingleSlashJoints(site: string, c: string, r: string) {
    |r| > |site| + 2 + |c| && r[..|site|] == site && (site == [] || r[|site| - 1] != '/')
    && r[|site|] == '/' && r[|site| + 1] != '/'
    && r[|site| + |c|] != '/' && r[|site| + 1 + |c|] == '/' && r[|site| + 2 + |c|] != '/'
  }

  /** With the configured `SITE_URL` as the site, the canonical URL has
      exactly one slash where the site meets the category and where the
      category meets the slug. */
  lemma CanonicalUrlJoints(env: Option<string>, categorySlug: string, articleSlug: string)
    ensures ArticleCanonicalUrl(SiteUrl(env), categorySlug, articleSlug) != [] ==>
      SingleSlashJoints(SiteUrl(env), PathPart(categorySlug), ArticleCanonicalUrl(SiteUrl(env), categorySlug, articleSlug))
  {
    var site := SiteUrl(env);
    var c := PathPart(categorySlug);
    var s := PathPart(articleSlug);
    if c != [] && s != [] {
      SlashJoints(site, c, s);
    }
  }

  lemma SlashJoints(site: string, c: string, s: string)
    requires site == [] || site[|site| - 1] != '/'
    requires c != [] && c[0] != '/' && c[|c| - 1] != '/' && s != [] && s[0] != '/'
    ensures SingleSlashJoints(site, c, site + "/" + c + "/" + s)
  {
    var r := site + "/" + c + "/" + s;
    assert r == site + ("/" + c + "/" + s);
    assert r[|site| + 1] == c[0];
    assert r[|site| + |c|] == c[|c| - 1];
    assert r[|site| + 2 + |c|] == s[0];
  }

  /** `buildCanonicalUrl` of the editorial controller: `${SITE_URL}/editorials/${slug}`. */
  function EditorialCanonicalUrl(site: string, slug: string): (r: string)
    ensures r == [] <==> PathPart(slug) == []
    ensures r != [] ==> r == site + "/editorials/" + PathPart(slug)
  {
    var s := PathPart(slug);
    if s == [] then [] else site + "/editorials/" + s
  }

  /** A path part without white space or slashes at its ends is kept as it is. */
  lemma PathPartIdentity(s: string)
    requires NoSpaceAtEdges(s) && (s == [] || (s[0] != '/' && s[|s| - 1] != '/'))
    ensures PathPart(s) == s
  {
    TrimIdentity(s);
    assert DropLeadingSlashes(s) == s;
    assert DropTrailingSlashes(s) == s;
  }

  /** A slug made by `slugify` goes into the canonical URL unchanged. */
  lemma PathPartOfSlug(s: string)
    requires Slug.IsSlug(s)
    ensures PathPart(s) == s
  {
    if s != [] {
      assert Slug.IsSlugChar(s[0]) && Slug.IsSlugChar(s[|s| - 1]);
    }
    PathPartIdentity(s);
  }

  /** Canonical URLs of slugified articles are exactly `${site}/${category}/${slug}`. */
  lemma ArticleCanonicalUrlOfSlugs(site: string, categorySlug: string, articleSlug: string)
    requires Slug.IsSlug(categorySlug) && categorySlug != []
    requires Slug.IsSlug(articleSlug) && articleSlug != []
    ensures ArticleCanonicalUrl(site, categorySlug, articleSlug) == site + "/" + categorySlug + "/" + articleSlug
  {
    PathPartOfSlug(categorySlug);
    PathPartOfSlug(articleSlug);
  }

  // ---------------------------------------------------------------------------
  // Reading time

  /** The number of non-empty pieces. */
  function CountNonEmpty(parts: seq<string>): (n: nat)
    ensures n <= |parts|
  {
    if parts == [] then 0 else (if parts[0] != [] then 1 else 0) + CountNonEmpty(parts[1..])
  }

  /** A split of `s` has at most `|s|` non-empty pieces. */
  lemma {:induction false} SplitPiecesBound(s: string, sep: char)
    ensures CountNonEmpty(Split(s, sep)) <= |s|
  {
    if s != [] {
      SplitPiecesBound(s[1..], sep);
      var rest := Split(s[1..], sep);
      if s[0] == sep {
        assert Split(s, sep)[1..] == rest;
      } else {
        assert Split(s, sep)[1..] == rest[1..];
        assert CountNonEmpty(rest) >= CountNonEmpty(rest[1..]);
      }
    }
  }

  /** `text.split(' ').filter(Boolean).length` of the tag-free content: no
      more words than characters, none for empty text, and one for a
      non-empty text without a space. */
  function WordCount(content: string): (r: nat)
    ensures r <= |TagFreeText(content)|
    ensures (TagFreeText(content) != [] && Free(TagFreeText(content), ' ')) ==> r == 1
  {
    var text := TagFreeText(content);
    SplitPiecesBound(text, ' ');
    if text != [] && Free(text, ' ') then
      SplitJoin([text], ' ');
      assert Join([text], [' ']) == text;
      CountNonEmpty(Split(text, ' '))
    else CountNonEmpty(Split(text, ' '))
  }

  /** The minutes of `calcReadTime`: two for missing content, otherwise the
      word count divided by 200 and rounded half up, at least one. */
  function ReadMinutes(content: string): (m: nat)
    ensures content == [] ==> m == 2
    ensures content != [] ==> m >= 1
    ensures content != [] && WordCount(content) < 300 ==> m == 1
    ensures content != [] && WordCount(content) >= 100 ==>
      200 * m - 100 <= WordCount(content) < 200 * m + 100
  {
    if content == [] then 2 else Max(1, (WordCount(content) + 100) / 200)
  }

  /** `calcReadTime`: the minutes followed by the Hindi word for minutes. */
  function ReadTime(content: string): (r: string)
    ensures |r| > |MinutesWord| && r[|r| - |MinutesWord|..] == MinutesWord
    ensures forall i :: 0 <= i < |r| - |MinutesWord| ==> IsDigit(r[i])
    ensures DigitsValue(r[..|r| - |MinutesWord|]) == ReadMinutes(content)
  {
    var digits := NatToString(ReadMinutes(content));
    NatToStringRoundTrip(ReadMinutes(content));
    var r := digits + MinutesWord;
    assert r[..|r| - |MinutesWord|] == digits;
    r
  }
}
