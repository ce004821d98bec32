/** `normalizeEducationNews`: the education-news record the API returns,
    with the Hindi texts, the publication date, the last-updated date and
    the SEO fields filled in from the stored fields. */
module EducationNews {
  import opened Wrappers
  import opened Js

  /** The Hindi title, excerpt and content fall back to the English ones. */
  function WithHindiTexts(d: Record): Record {
    FillFrom(FillFrom(FillFrom(d, "titleHindi", "title"), "excerptHindi", "excerpt"), "contentHindi", "content")
  }

  /** A missing publication date is the creation date, when that is a string. */
  function WithPublishedAt(d: Record): Record {
    if !Truthy(Field(d, "publishedAt")) && Field(d, "createdAt").Str? then d["publishedAt" := Field(d, "createdAt")]
    else d
  }

  /** `lastUpdated` is the update date, when that is a string. */
  function WithLastUpdated(d: Record): Record {
    if Field(d, "updatedAt").Str? then d["lastUpdated" := Field(d, "updatedAt")] else d
  }

  /** The SEO title and description fall back to the (filled) Hindi title
      and excerpt. */
  function WithSeoFields(d: Record): Record {
    FillFrom(FillFrom(d, "seoTitle", "titleHindi"), "seoDescription", "excerptHindi")
  }

  /** The normalized education-news record of a stored record. Every
      stored property other than the id, the Hindi texts, the dates and the
      SEO fields comes back unchanged. */
  function Normalized(p: Record): (r: Record)
    ensures SameExcept(r, p, DerivedKeys)
  {
    var d0 := StringifyId(p);
    var d1 := FillFrom(d0, "titleHindi", "title");
    var d2 := FillFrom(d1, "excerptHindi", "excerpt");
    var d3 := FillFrom(d2, "contentHindi", "content");
    var d4 := WithPublishedAt(d3);
    var d5 := WithLastUpdated(d4);
    var d6 := FillFrom(d5, "seoTitle", "titleHindi");
    var d7 := FillFrom(d6, "seoDescription", "excerptHindi");
    UpdateKeeps(p, "id", Str(ToStr(Field(p, "id"))), DerivedKeys);
    FillFromKeeps(d0, "titleHindi", "title", DerivedKeys);
    FillFromKeeps(d1, "excerptHindi", "excerpt", DerivedKeys);
    FillFromKeeps(d2, "contentHindi", "content", DerivedKeys);
    DateStepsSame(d3);
    DateStepsSame(d4);
    FillFromKeeps(d5, "seoTitle", "titleHindi", DerivedKeys);
    FillFromKeeps(d6, "seoDescription", "excerptHindi", DerivedKeys);
    SameExceptTrans(d1, d0, p, DerivedKeys);
    SameExceptTrans(d2, d1, p, DerivedKeys);
    SameExceptTrans(d3, d2, p, DerivedKeys);
    SameExceptTrans(d4, d3, p, DerivedKeys);
    SameExceptTrans(d5, d4, p, DerivedKeys);
    SameExceptTrans(d6, d5, p, DerivedKeys);
    SameExceptTrans(d7, d6, p, DerivedKeys);
    d7
  }

  /** `normalizeEducationNews`; `None` stands for a missing entity. */
  method NormalizeEducationNews(entity: Option<Record>) returns (r: Option<Record>)
    ensures entity.None? <==> r.None?
    ensures entity.Some? ==> r == Some(Normalized(entity.value))
  {
    if entity.None? {
      return None;
    }
    var n := StringifyId(entity.value);
    n := FillHindiTexts(n);
    n := FillDates(n);
    n := FillSeoFields(n);
    r := Some(n);
  }

  /** The Hindi texts fall back to the English ones, one after the other. */
  method FillHindiTexts(d: Record) returns (n: Record)
    ensures n == WithHindiTexts(d)
  {
    n := d;
    if !Truthy(Field(n, "titleHindi")) && Truthy(Field(n, "title")) {
      n := n["titleHindi" := n["title"]];
    }
    if !Truthy(Field(n, "excerptHindi")) && Truthy(Field(n, "excerpt")) {
      n := n["excerptHindi" := n["excerpt"]];
    }
    if !Truthy(Field(n, "contentHindi")) && Truthy(Field(n, "content")) {
      n := n["contentHindi" := n["content"]];
    }
  }

  /** The publication date, then the last-updated date. */
  method FillDates(d: Record) returns (n: Record)
    ensures n == WithLastUpdated(WithPublishedAt(d))
  {
    n := d;
    if !Truthy(Field(n, "publishedAt")) && Field(n, "createdAt").Str? {
      n := n["publishedAt" := n["createdAt"]];
    }
    assert n == WithPublishedAt(d);
    if Field(n, "updatedAt").Str? {
      n := n["lastUpdated" := n["updatedAt"]];
    }
  }

  /** The SEO title, then the SEO description. */
  method FillSeoFields(d: Record) returns (n: Record)
    ensures n == WithSeoFields(d)
  {
    n := d;
    if !Truthy(Field(n, "seoTitle")) && Truthy(Field(n, "titleHindi")) {
      n := n["seoTitle" := n["titleHindi"]];
    }
    if !Truthy(Field(n, "seoDescription")) && Truthy(Field(n, "excerptHindi")) {
      n := n["seoDescription" := n["excerptHindi"]];
    }
  }

  /** The properties the normalization may write. */
  const DerivedKeys: set<string> := {"id", "titleHindi", "excerptHindi", "contentHindi", "publishedAt", "lastUpdated",
    "seoTitle", "seoDescription"}

  /** Each date step changes nothing but its own date. */
  lemma DateStepsSame(d: Record)
    ensures SameExcept(WithPublishedAt(d), d, DerivedKeys)
    ensures SameExcept(WithLastUpdated(d), d, DerivedKeys)
  {
    if WithPublishedAt(d) != d {
      UpdateKeeps(d, "publishedAt", Field(d, "createdAt"), DerivedKeys);
    }
    if WithLastUpdated(d) != d {
      UpdateKeeps(d, "lastUpdated", Field(d, "updatedAt"), DerivedKeys);
    }
  }

  /** `key` after the falsy fill from `from`. */
  function Filled(d: Record, key: string, from: string): Value {
    if !Truthy(Field(d, key)) && Truthy(Field(d, from)) then Field(d, from) else Field(d, key)
  }

  lemma FillFromField(d: Record, key: string, from: string, k: string)
    ensures Field(FillFrom(d, key, from), k) == if k == key then Filled(d, key, from) else Field(d, k)
  {
  }

  /** The Hindi step writes only the Hindi texts, each from its own English text. */
  lemma HindiStep(d: Record, k: string)
    ensures k != "titleHindi" && k != "excerptHindi" && k != "contentHindi" ==> Field(WithHindiTexts(d), k) == Field(d, k)
    ensures k == "titleHindi" ==> Field(WithHindiTexts(d), k) == Filled(d, "titleHindi", "title")
    ensures k == "excerptHindi" ==> Field(WithHindiTexts(d), k) == Filled(d, "excerptHindi", "excerpt")
    ensures k == "contentHindi" ==> Field(WithHindiTexts(d), k) == Filled(d, "contentHindi", "content")
  {
    var d1 := FillFrom(d, "titleHindi", "title");
    var d2 := FillFrom(d1, "excerptHindi", "excerpt");
    FillFromField(d, "titleHindi", "title", k);
    FillFromField(d1, "excerptHindi", "excerpt", k);
    FillFromField(d2, "contentHindi", "content", k);
    FillFromField(d, "titleHindi", "title", "excerpt");
    FillFromField(d, "titleHindi", "title", "excerptHindi");
    FillFromField(d, "titleHindi", "title", "content");
    FillFromField(d, "titleHindi", "title", "contentHindi");
    FillFromField(d1, "excerptHindi", "excerpt", "content");
    FillFromField(d1, "excerptHindi", "excerpt", "contentHindi");
  }

  /** The date steps write only `publishedAt` and `lastUpdated`. */
  lemma DateSteps(d: Record, k: string)
    ensures k != "publishedAt" && k != "lastUpdated" ==> Field(WithLastUpdated(WithPublishedAt(d)), k) == Field(d, k)
    ensures k == "publishedAt" ==> (Field(WithLastUpdated(WithPublishedAt(d)), k) ==
      if !Truthy(Field(d, "publishedAt")) && Field(d, "createdAt").Str? then Field(d, "createdAt") else Field(d, "publishedAt"))
    ensures k == "lastUpdated" ==> (Field(WithLastUpdated(WithPublishedAt(d)), k) ==
      if Field(d, "updatedAt").Str? then Field(d, "updatedAt") else Field(d, "lastUpdated"))
  {
    var d1 := WithPublishedAt(d);
    assert Field(d1, "updatedAt") == Field(d, "updatedAt") && Field(d1, "lastUpdated") == Field(d, "lastUpdated");
  }

  /** The SEO step writes only the SEO title and description. */
  lemma SeoStep(d: Record, k: string)
    ensures k != "seoTitle" && k != "seoDescription" ==> Field(WithSeoFields(d), k) == Field(d, k)
    ensures k == "seoTitle" ==> Field(WithSeoFields(d), k) == Filled(d, "seoTitle", "titleHindi")
    ensures k == "seoDescription" ==> Field(WithSeoFields(d), k) == Filled(d, "seoDescription", "excerptHindi")
  {
    var d1 := FillFrom(d, "seoTitle", "titleHindi");
    FillFromField(d, "seoTitle", "titleHindi", k);
    FillFromField(d1, "seoDescription", "excerptHindi", k);
    FillFromField(d, "seoTitle", "titleHindi", "excerptHindi");
    FillFromField(d, "seoTitle", "titleHindi", "seoDescription");
  }

  /** A property no step writes is passed through. */
  lemma Untouched(p: Record, k: string)
    requires k !in DerivedKeys
    ensures Field(Normalized(p), k) == Field(p, k)
  {
    var d0 := StringifyId(p);
    var d1 := WithHindiTexts(d0);
    HindiStep(d0, k);
    DateSteps(d1, k);
    SeoStep(WithLastUpdated(WithPublishedAt(d1)), k);
  }

  /** The date and SEO steps keep every other property. */
  lemma AfterHindi(d1: Record, k: string)
    requires k != "publishedAt" && k != "lastUpdated" && k != "seoTitle" && k != "seoDescription"
    ensures Field(WithSeoFields(WithLastUpdated(WithPublishedAt(d1))), k) == Field(d1, k)
  {
    DateSteps(d1, k);
    SeoStep(WithLastUpdated(WithPublishedAt(d1)), k);
  }

  /** After the Hindi step, the id is a string and each Hindi text is filled. */
  lemma HindiOfStored(p: Record)
    ensures Field(WithHindiTexts(StringifyId(p)), "id") == Str(ToStr(Field(p, "id")))
    ensures Field(WithHindiTexts(StringifyId(p)), "titleHindi") == Filled(p, "titleHindi", "title")
    ensures Field(WithHindiTexts(StringifyId(p)), "excerptHindi") == Filled(p, "excerptHindi", "excerpt")
    ensures Field(WithHindiTexts(StringifyId(p)), "contentHindi") == Filled(p, "contentHindi", "content")
  {
    var d0 := StringifyId(p);
    assert Filled(d0, "titleHindi", "title") == Filled(p, "titleHindi", "title");
    assert Filled(d0, "excerptHindi", "excerpt") == Filled(p, "excerptHindi", "excerpt");
    assert Filled(d0, "contentHindi", "content") == Filled(p, "contentHindi", "content");
    HindiStep(d0, "titleHindi");
    HindiStep(d0, "excerptHindi");
    HindiStep(d0, "contentHindi");
    HindiStep(d0, "id");
  }

  /** The id comes back as a string, and each Hindi text is the stored one
      when truthy, else the English one when that is truthy. */
  lemma IdAndHindiTexts(p: Record)
    ensures Field(Normalized(p), "id") == Str(ToStr(Field(p, "id")))
    ensures Field(Normalized(p), "titleHindi") == Filled(p, "titleHindi", "title")
    ensures Field(Normalized(p), "excerptHindi") == Filled(p, "excerptHindi", "excerpt")
    ensures Field(Normalized(p), "contentHindi") == Filled(p, "contentHindi", "content")
  {
    var d1 := WithHindiTexts(StringifyId(p));
    HindiOfStored(p);
    AfterHindi(d1, "id");
    AfterHindi(d1, "titleHindi");
    AfterHindi(d1, "excerptHindi");
    AfterHindi(d1, "contentHindi");
  }

  /** A falsy publication date becomes the creation date when that is a
      string; `lastUpdated` is the update date whenever that is a string. */
  lemma Dates(p: Record)
    ensures Field(Normalized(p), "publishedAt") ==
      if !Truthy(Field(p, "publishedAt")) && Field(p, "createdAt").Str? then Field(p, "createdAt") else Field(p, "publishedAt")
    ensures Field(p, "updatedAt").Str? ==> Field(Normalized(p), "lastUpdated") == Field(p, "updatedAt")
    ensures !Field(p, "updatedAt").Str? ==> Field(Normalized(p), "lastUpdated") == Field(p, "lastUpdated")
  {
    var d0 := StringifyId(p);
    var d1 := WithHindiTexts(d0);
    var d2 := WithLastUpdated(WithPublishedAt(d1));
    HindiStep(d0, "publishedAt");
    HindiStep(d0, "createdAt");
    HindiStep(d0, "updatedAt");
    HindiStep(d0, "lastUpdated");
    DateSteps(d1, "publishedAt");
    DateSteps(d1, "lastUpdated");
    SeoStep(d2, "publishedAt");
    SeoStep(d2, "lastUpdated");
  }

  /** Before the SEO step the SEO fields are the stored ones and the Hindi
      title and excerpt are filled. */
  lemma BeforeSeo(p: Record)
    ensures Field(WithLastUpdated(WithPublishedAt(WithHindiTexts(StringifyId(p)))), "seoTitle") == Field(p, "seoTitle")
    ensures Field(WithLastUpdated(WithPublishedAt(WithHindiTexts(StringifyId(p)))), "seoDescription") ==
      Field(p, "seoDescription")
    ensures Field(WithLastUpdated(WithPublishedAt(WithHindiTexts(StringifyId(p)))), "titleHindi") ==
      Filled(p, "titleHindi", "title")
    ensures Field(WithLastUpdated(WithPublishedAt(WithHindiTexts(StringifyId(p)))), "excerptHindi") ==
      Filled(p, "excerptHindi", "excerpt")
  {
    var d0 := StringifyId(p);
    var d1 := WithHindiTexts(d0);
    HindiOfStored(p);
    HindiStep(d0, "seoTitle");
    HindiStep(d0, "seoDescription");
    DateSteps(d1, "seoTitle");
    DateSteps(d1, "seoDescription");
    DateSteps(d1, "titleHindi");
    DateSteps(d1, "excerptHindi");
  }

  /** A falsy SEO title becomes the Hindi title after its own fallback, so
      the English title when both are falsy; likewise the SEO description
      from the Hindi excerpt, then the English excerpt. */
  lemma SeoFields(p: Record)
    ensures Field(Normalized(p), "seoTitle") ==
      if !Truthy(Field(p, "seoTitle")) && Truthy(Filled(p, "titleHindi", "title")) then Filled(p, "titleHindi", "title")
      else Field(p, "seoTitle")
    ensures Field(Normalized(p), "seoDescription") ==
      if !Truthy(Field(p, "seoDescription")) && Truthy(Filled(p, "excerptHindi", "excerpt"))
      then Filled(p, "excerptHindi", "excerpt")
      else Field(p, "seoDescription")
    ensures Truthy(Field(p, "title")) ==> Truthy(Field(Normalized(p), "seoTitle"))
  {
    var d2 := WithLastUpdated(WithPublishedAt(WithHindiTexts(StringifyId(p))));
    BeforeSeo(p);
    SeoStep(d2, "seoTitle");
    SeoStep(d2, "seoDescription");
  }

  /** A falsy fill that has nothing to do leaves the record as it is. */
  lemma FillFromNoop(d: Record, key: string, from: string)
    requires Truthy(Field(d, key)) || !Truthy(Field(d, from))
    ensures FillFrom(d, key, from) == d
  {
  }

  lemma IdStable(p: Record)
    ensures StringifyId(Normalized(p)) == Normalized(p)
  {
    var n := Normalized(p);
    IdAndHindiTexts(p);
    assert "id" in n && n["id"] == Str(ToStr(Field(p, "id")));
  }

  lemma HindiStable(p: Record)
    ensures WithHindiTexts(Normalized(p)) == Normalized(p)
  {
    var n := Normalized(p);
    IdAndHindiTexts(p);
    Untouched(p, "title");
    Untouched(p, "excerpt");
    Untouched(p, "content");
    FillFromNoop(n, "titleHindi", "title");
    FillFromNoop(n, "excerptHindi", "excerpt");
    FillFromNoop(n, "contentHindi", "content");
  }

  lemma DatesStable(p: Record)
    ensures WithPublishedAt(Normalized(p)) == Normalized(p)
    ensures WithLastUpdated(Normalized(p)) == Normalized(p)
  {
    var n := Normalized(p);
    Dates(p);
    Untouched(p, "createdAt");
    Untouched(p, "updatedAt");
    PublishedAtFixed(n);
    LastUpdatedFixed(n);
  }

  /** The publication step has nothing to do once the date is the creation date. */
  lemma PublishedAtFixed(n: Record)
    requires !Truthy(Field(n, "publishedAt")) && Field(n, "createdAt").Str? ==>
      Field(n, "publishedAt") == Field(n, "createdAt")
    ensures WithPublishedAt(n) == n
  {
  }

  /** The last-updated step has nothing to do once it holds the update date. */
  lemma LastUpdatedFixed(n: Record)
    requires Field(n, "updatedAt").Str? ==> Field(n, "lastUpdated") == Field(n, "updatedAt")
    ensures WithLastUpdated(n) == n
  {
  }

  lemma SeoStable(p: Record)
    ensures WithSeoFields(Normalized(p)) == Normalized(p)
  {
    var n := Normalized(p);
    IdAndHindiTexts(p);
    SeoFields(p);
    FillFromNoop(n, "seoTitle", "titleHindi");
    FillFromNoop(n, "seoDescription", "excerptHindi");
  }

  /** Normalizing a normalized record changes nothing. */
  lemma NormalizedIsStable(p: Record)
    ensures Normalized(Normalized(p)) == Normalized(p)
  {
    IdStable(p);
    HindiStable(p);
    DatesStable(p);
    SeoStable(p);
  }
}
