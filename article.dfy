/** The article controller's own logic around the store: the hero selection,
    the search for a free slug, and the publication dates a create or update
    request writes. Store queries are given as their results: ordered id lists
    for the hero queries and a slug-to-owner map for the slug lookups. */
module Article {
  import opened Wrappers
  import opened Text
  import opened Js
  import opened Slug

  // ---------------------------------------------------------------------------
  // Hero selection

  /** `Math.max(1, Math.min(parseLimit(q.limit, 15), MAX_LIMIT))`. */
  function HeroLimit(q: Value): (r: int)
    ensures 1 <= r <= MaxLimit
    ensures ParseNumber(q).None? ==> r == 15
  {
    Max(1, Min(ParseLimit(q, 15), MaxLimit))
  }

  /** The ids of `s` outside `excluded`, in order (`filter((e) => !ids.has(e.id))`). */
  function FilterOut(s: seq<int>, excluded: set<int>): (r: seq<int>)
    ensures |r| <= |s|
    ensures forall x :: x in r <==> x in s && x !in excluded
  {
    if s == [] then []
    else if s[0] in excluded then FilterOut(s[1..], excluded)
    else [s[0]] + FilterOut(s[1..], excluded)
  }

  /** Every element of a prefix is an element of the whole. */
  lemma PrefixMembers<T>(p: seq<T>, s: seq<T>)
    requires p <= s
    ensures forall x :: x in p ==> x in s
  {
    forall x | x in p
      ensures x in s
    {
      var i :| 0 <= i < |p| && p[i] == x;
      assert s[i] == x;
    }
  }

  predicate Distinct(s: seq<int>) {
    forall i, j :: 0 <= i < j < |s| ==> s[i] != s[j]
  }

  /** Filtering keeps ids distinct. */
  lemma {:induction false} FilterOutDistinct(s: seq<int>, excluded: set<int>)
    requires Distinct(s)
    ensures Distinct(FilterOut(s, excluded))
  {
    if s != [] {
      assert Distinct(s[1..]);
      FilterOutDistinct(s[1..], excluded);
      assert s[0] !in s[1..];
    }
  }

  function FeaturedLimit(limit: int): int { Min(3, limit) }

  function BreakingLimit(limit: int): int { Max(0, limit - FeaturedLimit(limit)) }

  /** The featured list, then the breaking articles not already featured.
      The store returns at most `featuredLimit` featured ids and `limit * 2`
      breaking ids, newest first, from the full ordered lists `featured` and
      `breaking`. After the featured ids come as many of the fetched breaking
      ids that are not featured as there is room for, in their order. */
  function HeroCombined(limit: int, featured: seq<int>, breaking: seq<int>): (r: seq<int>)
    requires 1 <= limit
    ensures |r| <= limit
    ensures Take(featured, FeaturedLimit(limit)) <= r
    ensures |r| - |Take(featured, FeaturedLimit(limit))| <= BreakingLimit(limit)
    ensures forall i :: |Take(featured, FeaturedLimit(limit))| <= i < |r| ==>
      r[i] in breaking && r[i] !in Take(featured, FeaturedLimit(limit))
    ensures r[|Take(featured, FeaturedLimit(limit))|..] <= FreshBreaking(limit, featured, breaking)
    ensures |r| - |Take(featured, FeaturedLimit(limit))|
      == Min(BreakingLimit(limit), |FreshBreaking(limit, featured, breaking)|)
  {
    var shown := Take(featured, FeaturedLimit(limit));
    var ids := set x | x in shown;
    var raw := Take(breaking, limit * 2);
    var rest := Take(FilterOut(raw, ids), BreakingLimit(limit));
    PrefixMembers(rest, FilterOut(raw, ids));
    PrefixMembers(raw, breaking);
    assert forall x :: x in rest ==> x in breaking && x !in ids;
    assert forall x :: x in ids <==> x in shown;
    assert forall i :: |shown| <= i < |shown + rest| ==> (shown + rest)[i] == rest[i - |shown|];
    assert (shown + rest)[|shown|..] == rest;
    shown + rest
  }

  /** The fetched breaking ids (the first `limit * 2`) that are not among the
      featured ids shown, in order. */
  function FreshBreaking(limit: int, featured: seq<int>, breaking: seq<int>): seq<int> {
    var shown := Take(featured, FeaturedLimit(limit));
    FilterOut(Take(breaking, limit * 2), set x | x in shown)
  }

  /** `hero`: the combined list, or the latest `limit` published articles when it is empty. */
  function Hero(q: Value, featured: seq<int>, breaking: seq<int>, latest: seq<int>): (r: seq<int>)
    ensures |r| <= HeroLimit(q) <= MaxLimit
    ensures HeroCombined(HeroLimit(q), featured, breaking) != [] ==> r == HeroCombined(HeroLimit(q), featured, breaking)
    ensures HeroCombined(HeroLimit(q), featured, breaking) == [] ==> r == Take(latest, HeroLimit(q))
  {
    var limit := HeroLimit(q);
    var combined := HeroCombined(limit, featured, breaking);
    if combined == [] then Take(latest, limit) else combined
  }

  /** With featured articles in the store the hero opens with the newest
      (at most three) of them. */
  lemma HeroOpensWithFeatured(q: Value, featured: seq<int>, breaking: seq<int>, latest: seq<int>)
    requires featured != []
    ensures Take(featured, FeaturedLimit(HeroLimit(q))) != []
    ensures Take(featured, FeaturedLimit(HeroLimit(q))) <= Hero(q, featured, breaking, latest)
  {
  }

  /** A limit of three or less leaves no room for breaking articles: the
      hero is the featured list, or the latest articles when there is none. */
  lemma HeroSmallLimitHasNoBreaking(limit: int, featured: seq<int>, breaking: seq<int>)
    requires 1 <= limit <= 3
    ensures HeroCombined(limit, featured, breaking) == Take(featured, limit)
  {
    var r := HeroCombined(limit, featured, breaking);
    assert |r| - |Take(featured, FeaturedLimit(limit))| <= 0;
  }

  /** Distinct ids in the store give a hero without repeats. */
  lemma HeroDistinct(limit: int, featured: seq<int>, breaking: seq<int>)
    requires 1 <= limit
    requires Distinct(featured) && Distinct(breaking)
    ensures Distinct(HeroCombined(limit, featured, breaking))
  {
    var shown := Take(featured, FeaturedLimit(limit));
    var ids := set x | x in shown;
    var raw := Take(breaking, limit * 2);
    assert Distinct(raw);
    FilterOutDistinct(raw, ids);
    var rest := Take(FilterOut(raw, ids), BreakingLimit(limit));
    assert Distinct(rest);
    var r := shown + rest;
    assert r == HeroCombined(limit, featured, breaking);
    forall i, j | 0 <= i < j < |r|
      ensures r[i] != r[j]
    {
      if j >= |shown| && i < |shown| {
        assert r[j] in rest && r[i] in shown;
      } else if i >= |shown| {
        assert r[i] == rest[i - |shown|] && r[j] == rest[j - |shown|];
      }
    }
  }

  // ---------------------------------------------------------------------------
  // Free slug search

  const MaxAttempts: nat := 50

  /** `${root}-${n}`. */
  function Suffixed(root: string, n: nat): string {
    root + "-" + NatToString(n)
  }

  /** The candidate tried on the given attempt: the root first, then `root-2`, `root-3`, … */
  function Candidate(root: string, attempt: nat): string {
    if attempt <= 1 then root else Suffixed(root, attempt)
  }

  /** A candidate can be used when no entry holds it, when the entry found
      has no id, or when the entry found is the one being updated. */
  predicate Free(owners: map<string, int>, excludeId: Option<int>, c: string) {
    c !in owners || owners[c] == 0 || (excludeId.Some? && excludeId.value != 0 && owners[c] == excludeId.value)
  }

  /** The candidate of the given attempt is held by another entry. */
  predicate TakenAt(root: string, owners: map<string, int>, excludeId: Option<int>, attempt: nat) {
    !Free(owners, excludeId, Candidate(root, attempt))
  }

  /** The slugified base, or `<kind>-<timestamp>` when it slugifies to nothing. */
  function SlugRoot(kind: string, base: string, stamp: nat): (r: string)
    ensures r != []
  {
    if Slugify(base) != [] then Slugify(base) else Suffixed(kind, stamp)
  }

  /** The candidate the search settles on from the given attempt on: the
      first free one before attempt 50, else the root with the fallback
      timestamp. */
  function FirstFree(root: string, owners: map<string, int>, excludeId: Option<int>, attempt: nat, stamp: nat): (r: string)
    requires 1 <= attempt
    ensures r == Suffixed(root, stamp) || Free(owners, excludeId, r)
    ensures attempt >= MaxAttempts ==> r == Suffixed(root, stamp)
    decreases MaxAttempts - attempt
  {
    if attempt >= MaxAttempts then Suffixed(root, stamp)
    else if Free(owners, excludeId, Candidate(root, attempt)) then Candidate(root, attempt)
    else FirstFree(root, owners, excludeId, attempt + 1, stamp)
  }

  /** The search returns the first free candidate from the given attempt on,
      all earlier ones being taken; when all 49 are taken it returns the
      root with the fallback timestamp. The attempt found is returned as `k`
      (`MaxAttempts` for the fallback). */
  lemma {:induction false} FirstFreeIsFirst(root: string, owners: map<string, int>, excludeId: Option<int>, attempt: nat, stamp: nat)
    returns (k: nat)
    requires 1 <= attempt
    decreases MaxAttempts - attempt
    ensures attempt <= k <= MaxAttempts || (attempt > MaxAttempts && k == MaxAttempts)
    ensures forall j :: attempt <= j < k ==> TakenAt(root, owners, excludeId, j)
    ensures k < MaxAttempts ==>
      Free(owners, excludeId, Candidate(root, k)) && FirstFree(root, owners, excludeId, attempt, stamp) == Candidate(root, k)
    ensures k == MaxAttempts ==> FirstFree(root, owners, excludeId, attempt, stamp) == Suffixed(root, stamp)
  {
    if attempt >= MaxAttempts {
      k := MaxAttempts;
    } else {
      FirstFreeStep(root, owners, excludeId, attempt, stamp);
      if Free(owners, excludeId, Candidate(root, attempt)) {
        k := attempt;
      } else {
        k := FirstFreeIsFirst(root, owners, excludeId, attempt + 1, stamp);
      }
    }
  }

  /** `ensureUniqueSlug` of the article controller (`kind` "article") and of
      the editorial controller (`kind` "editorial"). `owners` maps a slug to
      the id of the first entry holding it (0 for an entry without an id);
      `rootStamp` and `fallbackStamp` are the two readings of `Date.now()`. */
  method EnsureUniqueSlug(kind: string, base: string, excludeId: Option<int>, owners: map<string, int>,
                          rootStamp: nat, fallbackStamp: nat) returns (slug: string)
    ensures slug == FirstFree(SlugRoot(kind, base, rootStamp), owners, excludeId, 1, fallbackStamp)
  {
    var root := Slugify(base);
    if root == [] {
      root := Suffixed(kind, rootStamp);
    }
    assert root == SlugRoot(kind, base, rootStamp);
    slug := SearchSlug(root, owners, excludeId, fallbackStamp);
  }

  /** The probing loop of `ensureUniqueSlug`, from the root on. */
  method SearchSlug(root: string, owners: map<string, int>, excludeId: Option<int>, fallbackStamp: nat)
    returns (slug: string)
    ensures slug == FirstFree(root, owners, excludeId, 1, fallbackStamp)
  {
    var candidate := root;
    var attempt: nat := 1;
    while attempt < MaxAttempts
      invariant 1 <= attempt <= MaxAttempts
      invariant candidate == Candidate(root, attempt)
      invariant FirstFree(root, owners, excludeId, attempt, fallbackStamp) == FirstFree(root, owners, excludeId, 1, fallbackStamp)
      decreases MaxAttempts - attempt
    {
      FirstFreeStep(root, owners, excludeId, attempt, fallbackStamp);
      if candidate !in owners || owners[candidate] == 0 {
        return candidate;
      }
      if excludeId.Some? && excludeId.value != 0 && owners[candidate] == excludeId.value {
        return candidate;
      }
      attempt := attempt + 1;
      candidate := Suffixed(root, attempt);
    }
    slug := Suffixed(root, fallbackStamp);
  }

  /** One step of the search: a free candidate is the answer, a taken one
      defers to the next attempt. */
  lemma FirstFreeStep(root: string, owners: map<string, int>, excludeId: Option<int>, attempt: nat, stamp: nat)
    requires 1 <= attempt < MaxAttempts
    ensures Free(owners, excludeId, Candidate(root, attempt)) ==> FirstFree(root, owners, excludeId, attempt, stamp) == Candidate(root, attempt)
    ensures !Free(owners, excludeId, Candidate(root, attempt)) ==> FirstFree(root, owners, excludeId, attempt, stamp) == FirstFree(root, owners, excludeId, attempt + 1, stamp)
    ensures Candidate(root, attempt + 1) == Suffixed(root, attempt + 1)
  {
  }

  /** A slug, a hyphen and a number form a slug. */
  lemma SuffixedIsSlug(root: string, n: nat)
    requires root != [] && IsSlug(root)
    ensures IsSlug(Suffixed(root, n))
  {
    var digits := NatToString(n);
    var s := Suffixed(root, n);
    assert s == root + ['-'] + digits;
    forall i | 0 <= i < |s| - 1
      ensures !(s[i] == '-' && s[i + 1] == '-')
    {
      if i < |root| - 1 {
        assert s[i] == root[i] && s[i + 1] == root[i + 1];
      } else if i == |root| - 1 {
        assert s[i] == root[|root| - 1];
      } else {
        assert s[i + 1] == digits[i + 1 - |root| - 1];
      }
    }
    forall i | 0 <= i < |s|
      ensures IsSlugChar(s[i])
    {
      if i < |root| {
        assert s[i] == root[i];
      } else if i > |root| {
        assert s[i] == digits[i - |root| - 1];
      }
    }
    assert s[|s| - 1] == digits[|digits| - 1];
  }

  lemma KindIsSlug(kind: string)
    requires kind == "article" || kind == "editorial"
    ensures kind != [] && IsSlug(kind)
  {
    assert forall i :: 0 <= i < |kind| ==> IsLowerAscii(kind[i]);
  }

  /** The root of the search is a slug. */
  lemma RootIsSlug(kind: string, base: string, stamp: nat)
    requires kind == "article" || kind == "editorial"
    ensures IsSlug(SlugRoot(kind, base, stamp))
  {
    var root := SlugRoot(kind, base, stamp);
    if Slugify(base) != [] {
      assert root == Slugify(base);
    } else {
      KindIsSlug(kind);
      SuffixedIsSlug(kind, stamp);
      assert root == Suffixed(kind, stamp);
    }
  }

  /** Every candidate the search can return is a slug. */
  lemma UniqueSlugIsSlug(kind: string, base: string, owners: map<string, int>, excludeId: Option<int>,
                         rootStamp: nat, fallbackStamp: nat)
    requires kind == "article" || kind == "editorial"
    ensures IsSlug(FirstFree(SlugRoot(kind, base, rootStamp), owners, excludeId, 1, fallbackStamp))
  {
    var root := SlugRoot(kind, base, rootStamp);
    RootIsSlug(kind, base, rootStamp);
    var k := FirstFreeIsFirst(root, owners, excludeId, 1, fallbackStamp);
    var found := FirstFree(root, owners, excludeId, 1, fallbackStamp);
    if k == MaxAttempts {
      SuffixedIsSlug(root, fallbackStamp);
      assert found == Suffixed(root, fallbackStamp);
    } else if k == 1 {
      assert found == root;
    } else {
      SuffixedIsSlug(root, k);
      assert found == Suffixed(root, k);
    }
  }

  /** A free slugified title is used as it is. */
  lemma FreeRootIsUsed(kind: string, base: string, owners: map<string, int>, excludeId: Option<int>,
                       rootStamp: nat, fallbackStamp: nat)
    requires Slugify(base) != [] && Free(owners, excludeId, Slugify(base))
    ensures FirstFree(SlugRoot(kind, base, rootStamp), owners, excludeId, 1, fallbackStamp) == Slugify(base)
  {
  }

  // ---------------------------------------------------------------------------
  // Publication dates of buildStrapiArticleData

  /** `parseDateToISO`: nothing for a falsy value, otherwise what the date
      parser `iso` (standing for `new Date(value).toISOString()` on a valid
      date) makes of it. */
  function ParseDateToIso(v: Value, iso: Value -> Option<string>): (r: Option<string>)
    ensures !Truthy(v) ==> r == None
  {
    if !Truthy(v) then None else iso(v)
  }

  /** `set(key, val)`: the key is written only for a defined value. */
  function SetDefined(d: Record, key: string, v: Option<string>): (r: Record)
    ensures v.None? ==> r == d
    ensures v.Some? ==> r == d[key := Str(v.value)]
  {
    if v.Some? then d[key := Str(v.value)] else d
  }

  /** The `scheduledAt` step: the parsed date, when the field is part of the request. */
  function ScheduledStep(d: Record, input: Value, isPartial: bool, iso: Value -> Option<string>): (r: Record)
    ensures forall k :: k != "scheduledAt" ==> (k in r <==> k in d) && (k in d ==> r[k] == d[k])
    ensures isPartial && !Has(input, "scheduledAt") ==> r == d
  {
    if !isPartial || Has(input, "scheduledAt") then
      SetDefined(d, "scheduledAt", ParseDateToIso(Get(input, "scheduledAt"), iso))
    else d
  }

  /** The `status` step: `published` writes the given date or now, `draft`
      clears the date, `scheduled` clears it and fills a missing scheduled
      date, and without a known status a given publication date is written. */
  function StatusStep(d: Record, input: Value, isPartial: bool, iso: Value -> Option<string>, now: string): (r: Record)
    ensures forall k :: k != "scheduledAt" && k != "publishedAt" ==> (k in r <==> k in d) && (k in d ==> r[k] == d[k])
  {
    var status := ParseString(Get(input, "status"));
    if status == Some("published") then d["publishedAt" := Str(ParseDateToIso(Get(input, "publishedDate"), iso).GetOr(now))]
    else if status == Some("draft") then d["publishedAt" := Null]
    else if status == Some("scheduled") then ScheduledStatusStep(d, input, iso)
    else StatuslessStep(d, input, isPartial, iso)
  }

  /** Without a recognised status, a given publication date is written; a
      partial update writes it only when the request names it. */
  function StatuslessStep(d: Record, input: Value, isPartial: bool, iso: Value -> Option<string>): (r: Record)
    ensures forall k :: k != "publishedAt" ==> (k in r <==> k in d) && (k in d ==> r[k] == d[k])
    ensures r != d ==> "publishedAt" in r && r["publishedAt"].Str? && r["publishedAt"].s != []
  {
    var publishedDate := ParseDateToIso(Get(input, "publishedDate"), iso);
    var truthy := publishedDate.Some? && publishedDate.value != [];
    if !isPartial && truthy then d["publishedAt" := Str(publishedDate.value)]
    else if isPartial && Has(input, "publishedDate") && truthy then d["publishedAt" := Str(publishedDate.value)]
    else d
  }

  /** The `scheduled` branch of the status step: the publication date is
      cleared, and a missing scheduled date is filled from the request's
      `scheduledAt`, else its `publishedDate`. */
  function ScheduledStatusStep(d: Record, input: Value, iso: Value -> Option<string>): (r: Record)
    ensures forall k :: k != "scheduledAt" && k != "publishedAt" ==> (k in r <==> k in d) && (k in d ==> r[k] == d[k])
  {
    var cleared := d["publishedAt" := Null];
    if !Truthy(Field(d, "scheduledAt")) then
      var next := match ParseDateToIso(Get(input, "scheduledAt"), iso)
        case Some(s) => Some(s)
        case None => ParseDateToIso(Get(input, "publishedDate"), iso);
      if next.Some? && next.value != [] then cleared["scheduledAt" := Str(next.value)] else cleared
    else cleared
  }

  /** The `scheduledAt` line of `buildStrapiArticleData`. */
  method ApplyScheduledDate(data: Record, input: Value, isPartial: bool, iso: Value -> Option<string>)
    returns (out: Record)
    ensures out == ScheduledStep(data, input, isPartial, iso)
  {
    out := data;
    if !isPartial || Has(input, "scheduledAt") {
      var scheduled := ParseDateToIso(Get(input, "scheduledAt"), iso);
      if scheduled.Some? {
        out := out["scheduledAt" := Str(scheduled.value)];
      }
    }
  }

  /** The status mapping of `buildStrapiArticleData`. */
  method ApplyStatus(data: Record, input: Value, isPartial: bool, iso: Value -> Option<string>, now: string)
    returns (out: Record)
    ensures out == StatusStep(data, input, isPartial, iso, now)
  {
    out := data;
    var status := ParseString(Get(input, "status"));
    var publishedDate := ParseDateToIso(Get(input, "publishedDate"), iso);
    ghost var spec := StatusStep(data, input, isPartial, iso, now);
    if status == Some("published") {
      out := out["publishedAt" := Str(publishedDate.GetOr(now))];
      assert out == spec;
    } else if status == Some("draft") {
      out := out["publishedAt" := Null];
      assert out == spec;
    } else if status == Some("scheduled") {
      out := ApplyScheduledStatus(data, input, iso);
    } else {
      assert spec == StatuslessStep(data, input, isPartial, iso);
      var truthy := publishedDate.Some? && publishedDate.value != [];
      if !isPartial && truthy {
        out := out["publishedAt" := Str(publishedDate.value)];
      } else if isPartial && Has(input, "publishedDate") && truthy {
        out := out["publishedAt" := Str(publishedDate.value)];
      }
    }
  }

  /** The `scheduled` branch of the status mapping. */
  method ApplyScheduledStatus(data: Record, input: Value, iso: Value -> Option<string>) returns (out: Record)
    ensures out == ScheduledStatusStep(data, input, iso)
  {
    out := data["publishedAt" := Null];
    if !Truthy(Field(data, "scheduledAt")) {
      var next := ParseDateToIso(Get(input, "scheduledAt"), iso);
      if next.None? {
        next := ParseDateToIso(Get(input, "publishedDate"), iso);
      }
      if next.Some? && next.value != [] {
        out := out["scheduledAt" := Str(next.value)];
      }
    }
  }

  /** The date fields `buildStrapiArticleData` writes into `data`: the
      requested scheduled date, then the status mapping. */
  method ApplyPublicationDates(data: Record, input: Value, isPartial: bool, iso: Value -> Option<string>, now: string)
    returns (out: Record)
    ensures out == StatusStep(ScheduledStep(data, input, isPartial, iso), input, isPartial, iso, now)
  {
    out := ApplyScheduledDate(data, input, isPartial, iso);
    out := ApplyStatus(out, input, isPartial, iso, now);
  }

  /** Without a recognised status, a create and a partial update write the
      same publication date: a date that parses was given, so the key is in
      the request and the `in` test adds nothing. */
  lemma StatuslessModesAgree(d: Record, input: Value, iso: Value -> Option<string>, now: string)
    requires !KnownStatus(input)
    ensures StatusStep(d, input, true, iso, now) == StatusStep(d, input, false, iso, now)
  {
    var publishedDate := ParseDateToIso(Get(input, "publishedDate"), iso);
    if publishedDate.Some? {
      assert Truthy(Get(input, "publishedDate"));
      assert Has(input, "publishedDate");
    }
    assert StatusStep(d, input, true, iso, now) == StatuslessStep(d, input, true, iso);
    assert StatusStep(d, input, false, iso, now) == StatuslessStep(d, input, false, iso);
  }

  /** A scheduled create whose `scheduledAt` does not parse is scheduled at
      the publication date instead. */
  lemma ScheduledFallsBackToPublishedDate(data: Record, input: Value, iso: Value -> Option<string>, now: string)
    requires ParseString(Get(input, "status")) == Some("scheduled")
    requires !Truthy(Field(data, "scheduledAt"))
    requires ParseDateToIso(Get(input, "scheduledAt"), iso).None?
    requires ParseDateToIso(Get(input, "publishedDate"), iso) == Some(now) && now != []
    ensures Field(StatusStep(ScheduledStep(data, input, false, iso), input, false, iso, now), "scheduledAt") == Str(now)
    ensures Field(StatusStep(ScheduledStep(data, input, false, iso), input, false, iso, now), "publishedAt") == Null
  {
    var d := ScheduledStep(data, input, false, iso);
    assert d == data;
    StatusStepUnclearedBranches(d, input, false, iso, now);
    ScheduledFillsFromPublishedDate(data, input, iso, now);
  }

  lemma ScheduledFillsFromPublishedDate(d: Record, input: Value, iso: Value -> Option<string>, now: string)
    requires !Truthy(Field(d, "scheduledAt"))
    requires ParseDateToIso(Get(input, "scheduledAt"), iso).None?
    requires ParseDateToIso(Get(input, "publishedDate"), iso) == Some(now) && now != []
    ensures Field(ScheduledStatusStep(d, input, iso), "scheduledAt") == Str(now)
    ensures Field(ScheduledStatusStep(d, input, iso), "publishedAt") == Null
  {
    var r := ScheduledStatusStep(d, input, iso);
    assert r == d["publishedAt" := Null]["scheduledAt" := Str(now)];
    assert "publishedAt"[0] != "scheduledAt"[0];
  }

  predicate KnownStatus(input: Value) {
    var status := ParseString(Get(input, "status"));
    status == Some("published") || status == Some("draft") || status == Some("scheduled")
  }

  /** A draft or scheduled request clears the publication date, and a
      scheduled date already in `data` is kept. */
  lemma DraftAndScheduledClearDate(d: Record, input: Value, isPartial: bool, iso: Value -> Option<string>, now: string)
    requires ParseString(Get(input, "status")) == Some("draft") || ParseString(Get(input, "status")) == Some("scheduled")
    ensures Field(StatusStep(d, input, isPartial, iso, now), "publishedAt") == Null
    ensures Truthy(Field(d, "scheduledAt")) ==> Field(StatusStep(d, input, isPartial, iso, now), "scheduledAt") == Field(d, "scheduledAt")
  {
    var status := ParseString(Get(input, "status"));
    StatusStepUnclearedBranches(d, input, isPartial, iso, now);
    if status == Some("scheduled") {
      ScheduledKeepsStoredDate(d, input, iso);
    }
  }

  lemma StatusStepUnclearedBranches(d: Record, input: Value, isPartial: bool, iso: Value -> Option<string>, now: string)
    ensures ParseString(Get(input, "status")) == Some("draft") ==> StatusStep(d, input, isPartial, iso, now) == d["publishedAt" := Null]
    ensures ParseString(Get(input, "status")) == Some("scheduled") ==> StatusStep(d, input, isPartial, iso, now) == ScheduledStatusStep(d, input, iso)
  {
    var status := ParseString(Get(input, "status"));
    if status == Some("draft") {
      StatusNamesDiffer();
    } else if status == Some("scheduled") {
      StatusNamesDiffer();
    }
  }

  lemma StatusNamesDiffer()
    ensures Some("draft") != Some("published") && Some("scheduled") != Some("published") && Some("scheduled") != Some("draft")
  {
    assert |"draft"| != |"published"| && |"scheduled"| != |"draft"|;
    assert "scheduled"[0] != "published"[0];
  }

  lemma ScheduledKeepsStoredDate(d: Record, input: Value, iso: Value -> Option<string>)
    ensures Field(ScheduledStatusStep(d, input, iso), "publishedAt") == Null
    ensures Truthy(Field(d, "scheduledAt")) ==> ScheduledStatusStep(d, input, iso) == d["publishedAt" := Null]
  {
  }

  /** A published request always ends with a publication date. */
  lemma PublishedRequestIsDated(data: Record, input: Value, isPartial: bool, iso: Value -> Option<string>, now: string)
    requires ParseString(Get(input, "status")) == Some("published")
    ensures Field(StatusStep(ScheduledStep(data, input, isPartial, iso), input, isPartial, iso, now), "publishedAt").Str?
  {
  }
}
