/** The seeding loops of the start-up code. Each seed record is looked up
    by its key (slug or email) among the stored entities; a missing one is
    created, and an existing one is updated with exactly the fields that
    differ, and only when some field differs. The store's replies are
    modelled: a created entity is the data with a fresh id, an updated one
    the stored entity with the patch written over it. Writes are recorded
    in order. */
module Seeding {
  import opened Wrappers
  import opened Text
  import opened Js
  import opened Microsite

  // ---------------------------------------------------------------------------
  // Comparing a stored value with a seed value

  /** `a === b` between two values of different origin: objects and arrays
      are never the same object, and `NaN` differs from itself. */
  predicate StrictEquals(a: Value, b: Value)
    ensures StrictEquals(a, b) ==> a == b && StrictEquals(b, a)
    ensures a.NaN? || IsObjectLike(a) ==> !StrictEquals(a, b)
    ensures a.Str? && b.Str? ==> (StrictEquals(a, b) <==> a.s == b.s)
  {
    a == b && !a.NaN? && !IsObjectLike(a)
  }

  /** How a field is compared: `prev !== next`, `(prev ?? null) !== (next ??
      null)`, or `JSON.stringify(prev ?? null) !== JSON.stringify(next ??
      null)`. */
  datatype Comparison = Strict | NullAsEqual | Json

  /** A compared field. */
  datatype Rule = Rule(key: string, cmp: Comparison)

  /** Whether a stored value and a seed value count as equal. Under every
      comparison equal values agree once `undefined` reads as `null`; the
      two looser comparisons treat `undefined` and `null` alike, and only
      the strict one tells them apart. */
  predicate Same(cmp: Comparison, prev: Value, next: Value)
    ensures Same(cmp, prev, next) ==> Coalesce(prev, Null) == Coalesce(next, Null)
    ensures cmp != Strict && Nullish(prev) && Nullish(next) ==> Same(cmp, prev, next)
    ensures cmp == Strict && prev.Undefined? && next.Null? ==> !Same(cmp, prev, next)
    ensures cmp == Json && prev == next ==> Same(cmp, prev, next)
    ensures cmp == NullAsEqual && StrictEquals(prev, next) ==> Same(cmp, prev, next)
  {
    match cmp
    case Strict => StrictEquals(prev, next)
    case NullAsEqual => StrictEquals(Coalesce(prev, Null), Coalesce(next, Null))
    case Json => Coalesce(prev, Null) == Coalesce(next, Null)
  }

  /** The stored entity and the seed data differ on the rule's field. */
  predicate Differs(entity: Value, data: Record, rule: Rule) {
    !Same(rule.cmp, Get(entity, rule.key), Field(data, rule.key))
  }

  /** The patch of a stored entity against seed data: the seed's value of
      every compared field that differs, and nothing else. */
  function Patch(entity: Value, data: Record, rules: seq<Rule>): (patch: Record)
    ensures forall k :: k in patch <==> exists i :: 0 <= i < |rules| && rules[i].key == k && Differs(entity, data, rules[i])
    ensures forall k :: k in patch ==> patch[k] == Field(data, k)
    ensures patch == map[] <==> forall i :: 0 <= i < |rules| ==> !Differs(entity, data, rules[i])
  {
    if rules == [] then map[]
    else
      var rest := Patch(entity, data, rules[..|rules| - 1]);
      var rule := rules[|rules| - 1];
      assert forall i :: 0 <= i < |rules| - 1 ==> rules[..|rules| - 1][i] == rules[i];
      if Differs(entity, data, rule) then rest[rule.key := Field(data, rule.key)] else rest
  }

  /** The properties of a stored entity. */
  function Props(entity: Value): Record {
    if entity.Obj? then entity.props else map[]
  }

  /** The entity the store returns after an update with `patch`. */
  function Merged(entity: Value, patch: Record): (r: Value)
    ensures r.Obj? && forall k :: Get(r, k) == if k in patch then patch[k] else Get(entity, k)
  {
    Obj(Props(entity) + patch)
  }

  /** The entity the store returns for created data. */
  function Created(data: Record, id: int): (r: Value)
    ensures r.Obj? && Get(r, "id") == Num(id)
    ensures forall k :: k != "id" ==> Get(r, k) == Field(data, k)
  {
    Obj(data["id" := Num(id)])
  }

  /** A value equal to itself under the comparison. */
  predicate SelfSame(cmp: Comparison, v: Value) {
    Same(cmp, v, v)
  }

  /** Once the patch is written, the entity no longer differs: the next
      patch is empty. This holds whenever every compared seed value equals
      itself under its comparison (no object under `===`, no `NaN`). */
  lemma PatchSettles(entity: Value, data: Record, rules: seq<Rule>)
    requires forall i :: 0 <= i < |rules| ==> SelfSame(rules[i].cmp, Field(data, rules[i].key))
    ensures Patch(Merged(entity, Patch(entity, data, rules)), data, rules) == map[]
  {
    var patch := Patch(entity, data, rules);
    var merged := Merged(entity, patch);
    forall i | 0 <= i < |rules|
      ensures !Differs(merged, data, rules[i])
    {
      if rules[i].key !in patch {
        assert !Differs(entity, data, rules[i]);
      }
    }
  }

  // ---------------------------------------------------------------------------
  // The generic seeding loop

  /** A store write: a creation with data, or an update of the entity with
      that id. */
  datatype Write = Create(data: Record) | Update(id: Value, patch: Record)

  /** A seed record: its key, its data and the fields compared. */
  datatype Seed = Seed(key: string, data: Record, rules: seq<Rule>)

  /** The state of a seeding loop: the entities by key, the writes so far,
      and the id the next created entity receives. */
  datatype Seeded = Seeded(index: map<string, Value>, writes: seq<Write>, nextId: int)

  /** The entity stored under a key, `undefined` when there is none
      (`Map.get`). */
  function Lookup(index: map<string, Value>, key: string): Value {
    if key in index then index[key] else Undefined
  }

  /** One seed: created when nothing is stored under its key; otherwise
      updated with its patch when that is not empty. */
  function SeedStep(st: Seeded, seed: Seed): (r: Seeded)
    ensures !Truthy(Lookup(st.index, seed.key)) ==>
      r.writes == st.writes + [Create(seed.data)] && r.index == st.index[seed.key := Created(seed.data, st.nextId)]
    ensures Truthy(Lookup(st.index, seed.key)) && Patch(Lookup(st.index, seed.key), seed.data, seed.rules) == map[] ==> r == st
    ensures Truthy(Lookup(st.index, seed.key)) && Patch(Lookup(st.index, seed.key), seed.data, seed.rules) != map[] ==>
      var patch := Patch(Lookup(st.index, seed.key), seed.data, seed.rules);
      r.writes == st.writes + [Update(Get(Lookup(st.index, seed.key), "id"), patch)]
      && r.index == st.index[seed.key := Merged(Lookup(st.index, seed.key), patch)]
  {
    var found := Lookup(st.index, seed.key);
    if !Truthy(found) then
      Seeded(st.index[seed.key := Created(seed.data, st.nextId)], st.writes + [Create(seed.data)], st.nextId + 1)
    else
      var patch := Patch(found, seed.data, seed.rules);
      if patch == map[] then st
      else Seeded(st.index[seed.key := Merged(found, patch)], st.writes + [Update(Get(found, "id"), patch)], st.nextId)
  }

  /** The seeds applied in order: writes are only appended, at most one per
      seed; no key is dropped, every seed's key ends up stored, and ids
      are never reused. */
  function SeedAll(st: Seeded, seeds: seq<Seed>): (r: Seeded)
    ensures st.writes <= r.writes && |r.writes| <= |st.writes| + |seeds|
    ensures forall k :: k in st.index ==> k in r.index
    ensures forall i :: 0 <= i < |seeds| ==> seeds[i].key in r.index
    ensures r.nextId >= st.nextId
  {
    if seeds == [] then st
    else
      var prev := SeedAll(st, seeds[..|seeds| - 1]);
      StepKeeps(prev, seeds[|seeds| - 1]);
      assert forall i :: 0 <= i < |seeds| - 1 ==> seeds[..|seeds| - 1][i] == seeds[i];
      SeedStep(prev, seeds[|seeds| - 1])
  }

  /** One step appends at most one write, keeps every key, stores the
      seed's key and does not lower the next id. */
  lemma StepKeeps(st: Seeded, seed: Seed)
    ensures var r := SeedStep(st, seed);
      st.writes <= r.writes && |r.writes| <= |st.writes| + 1
      && (forall k :: k in st.index ==> k in r.index)
      && seed.key in r.index && r.nextId >= st.nextId
  {
  }

  /** One more seed is one more step. */
  lemma SeedAllSnoc(st: Seeded, seeds: seq<Seed>, seed: Seed)
    ensures SeedAll(st, seeds + [seed]) == SeedStep(SeedAll(st, seeds), seed)
  {
    assert (seeds + [seed])[..|seeds|] == seeds;
  }

  /** Seeding a prefix one seed longer is one more step. */
  lemma SeedAllPrefixStep(st: Seeded, seeds: seq<Seed>, i: nat)
    requires i < |seeds|
    ensures SeedAll(st, seeds[..i + 1]) == SeedStep(SeedAll(st, seeds[..i]), seeds[i])
  {
    assert seeds[..i + 1][..i] == seeds[..i];
  }

  /** The index the loops build from the stored entities: each entity with
      a truthy key field under `String(key)`, a later one replacing an
      earlier one with the same key. */
  function IndexBy(entities: seq<Value>, keyField: string): (r: map<string, Value>)
    ensures forall k :: k in r ==> r[k] in entities && Truthy(Get(r[k], keyField)) && ToStr(Get(r[k], keyField)) == k
    ensures forall i :: 0 <= i < |entities| && Truthy(Get(entities[i], keyField)) ==> ToStr(Get(entities[i], keyField)) in r
  {
    if entities == [] then map[]
    else
      var rest := IndexBy(entities[..|entities| - 1], keyField);
      var last := entities[|entities| - 1];
      assert entities == entities[..|entities| - 1] + [last];
      assert forall i :: 0 <= i < |entities| - 1 ==> entities[..|entities| - 1][i] == entities[i];
      if Truthy(Get(last, keyField)) then rest[ToStr(Get(last, keyField)) := last] else rest
  }

  /** The loop that builds the index. */
  method BuildIndex(entities: seq<Value>, keyField: string) returns (index: map<string, Value>)
    ensures index == IndexBy(entities, keyField)
  {
    index := map[];
    for i := 0 to |entities|
      invariant index == IndexBy(entities[..i], keyField)
    {
      assert entities[..i + 1][..i] == entities[..i];
      if Truthy(Get(entities[i], keyField)) {
        index := index[ToStr(Get(entities[i], keyField)) := entities[i]];
      }
    }
    assert entities[..|entities|] == entities;
  }

  /** The body of a seeding loop for one seed. */
  method ApplySeed(index: map<string, Value>, writes: seq<Write>, nextId: int, seed: Seed)
    returns (index': map<string, Value>, writes': seq<Write>, nextId': int)
    ensures Seeded(index', writes', nextId') == SeedStep(Seeded(index, writes, nextId), seed)
  {
    index', writes', nextId' := index, writes, nextId;
    var found := Lookup(index, seed.key);
    if !Truthy(found) {
      var created := Created(seed.data, nextId);
      writes' := writes + [Create(seed.data)];
      nextId' := nextId + 1;
      index' := index[seed.key := created];
      return;
    }
    var patch := Patch(found, seed.data, seed.rules);
    if |patch.Keys| > 0 {
      writes' := writes + [Update(Get(found, "id"), patch)];
      index' := index[seed.key := Merged(found, patch)];
    } else {
      assert patch == map[];
    }
  }

  /** A seeding loop over the stored entities and the seeds. */
  method SeedCollection(entities: seq<Value>, keyField: string, seeds: seq<Seed>, nextId: int) returns (st: Seeded)
    ensures st == SeedAll(Seeded(IndexBy(entities, keyField), [], nextId), seeds)
  {
    var index := BuildIndex(entities, keyField);
    var writes: seq<Write> := [];
    var id := nextId;
    for i := 0 to |seeds|
      invariant Seeded(index, writes, id) == SeedAll(Seeded(IndexBy(entities, keyField), [], nextId), seeds[..i])
    {
      SeedAllPrefixStep(Seeded(IndexBy(entities, keyField), [], nextId), seeds, i);
      index, writes, id := ApplySeed(index, writes, id, seeds[i]);
    }
    assert seeds[..|seeds|] == seeds;
    st := Seeded(index, writes, id);
  }

  // ---------------------------------------------------------------------------
  // Idempotence

  /** Every compared field of the seed equals itself, and `id` is not
      compared. */
  predicate WellFormed(seed: Seed) {
    forall i :: 0 <= i < |seed.rules| ==> seed.rules[i].key != "id" && SelfSame(seed.rules[i].cmp, Field(seed.data, seed.rules[i].key))
  }

  /** The entity stored under the seed's key is present and agrees with it. */
  predicate Settled(index: map<string, Value>, seed: Seed) {
    Truthy(Lookup(index, seed.key)) && Patch(Lookup(index, seed.key), seed.data, seed.rules) == map[]
  }

  /** A created entity agrees with its seed. */
  lemma CreatedSettles(seed: Seed, id: int)
    requires WellFormed(seed)
    ensures Patch(Created(seed.data, id), seed.data, seed.rules) == map[]
  {
    forall i | 0 <= i < |seed.rules|
      ensures !Differs(Created(seed.data, id), seed.data, seed.rules[i])
    {
    }
  }

  /** After one step the seed's key is settled. */
  lemma StepSettles(st: Seeded, seed: Seed)
    requires WellFormed(seed)
    ensures Settled(SeedStep(st, seed).index, seed)
  {
    var found := Lookup(st.index, seed.key);
    if !Truthy(found) {
      CreatedSettles(seed, st.nextId);
    } else if Patch(found, seed.data, seed.rules) != map[] {
      assert forall i :: 0 <= i < |seed.rules| ==> SelfSame(seed.rules[i].cmp, Field(seed.data, seed.rules[i].key));
      PatchSettles(found, seed.data, seed.rules);
    }
  }

  /** A step touches the index only under its own key. */
  lemma StepKeepsOthers(st: Seeded, seed: Seed, k: string)
    requires k != seed.key
    ensures Lookup(SeedStep(st, seed).index, k) == Lookup(st.index, k)
  {
  }

  /** Distinct keys. */
  predicate DistinctKeys(seeds: seq<Seed>) {
    forall i, j :: 0 <= i < j < |seeds| ==> seeds[i].key != seeds[j].key
  }

  /** After a run over seeds with distinct keys, every seed is settled. */
  lemma {:induction false} SeedAllSettles(st: Seeded, seeds: seq<Seed>)
    requires DistinctKeys(seeds)
    requires forall i :: 0 <= i < |seeds| ==> WellFormed(seeds[i])
    ensures forall i :: 0 <= i < |seeds| ==> Settled(SeedAll(st, seeds).index, seeds[i])
  {
    if seeds != [] {
      var init := seeds[..|seeds| - 1];
      var last := seeds[|seeds| - 1];
      assert forall i :: 0 <= i < |init| ==> init[i] == seeds[i];
      SeedAllSettles(st, init);
      var mid := SeedAll(st, init);
      StepSettles(mid, last);
      forall i | 0 <= i < |seeds| - 1
        ensures Settled(SeedAll(st, seeds).index, seeds[i])
      {
        StepKeepsOthers(mid, last, seeds[i].key);
      }
    }
  }

  /** Seeds that are all settled cause no write and change nothing. */
  lemma {:induction false} SettledSeedsWriteNothing(st: Seeded, seeds: seq<Seed>)
    requires forall i :: 0 <= i < |seeds| ==> Settled(st.index, seeds[i])
    ensures SeedAll(st, seeds) == st
  {
    if seeds != [] {
      var init := seeds[..|seeds| - 1];
      assert forall i :: 0 <= i < |init| ==> init[i] == seeds[i];
      SettledSeedsWriteNothing(st, init);
    }
  }

  /** Seeding is idempotent: a second run over what the first produced
      writes nothing. */
  lemma SecondRunWritesNothing(index: map<string, Value>, nextId: int, seeds: seq<Seed>)
    requires DistinctKeys(seeds)
    requires forall i :: 0 <= i < |seeds| ==> WellFormed(seeds[i])
    ensures var first := SeedAll(Seeded(index, [], nextId), seeds);
      SeedAll(Seeded(first.index, [], first.nextId), seeds).writes == []
  {
    var first := SeedAll(Seeded(index, [], nextId), seeds);
    SeedAllSettles(Seeded(index, [], nextId), seeds);
    SettledSeedsWriteNothing(Seeded(first.index, [], first.nextId), seeds);
  }

  // ---------------------------------------------------------------------------
  // Categories, authors and pages

  datatype CategorySeed = CategorySeed(slug: string, titleHindi: string, titleEnglish: string, description: string,
    path: string, order: int)

  /** The two titles are compared with `!==`, the description, the path and
      the order after `?? null`. */
  const CategoryRules: seq<Rule> := [Rule("titleHindi", Strict), Rule("titleEnglish", Strict),
    Rule("description", NullAsEqual), Rule("path", NullAsEqual), Rule("order", NullAsEqual)]

  function CategorySeedOf(c: CategorySeed): (r: Seed)
    ensures r.key == c.slug && WellFormed(r) && r.rules == CategoryRules
    ensures Field(r.data, "titleHindi") == Str(c.titleHindi) && Field(r.data, "titleEnglish") == Str(c.titleEnglish)
    ensures Field(r.data, "description") == Str(c.description) && Field(r.data, "path") == Str(c.path)
    ensures Field(r.data, "order") == Num(c.order)
  {
    Seed(c.slug, map["slug" := Str(c.slug), "titleHindi" := Str(c.titleHindi), "titleEnglish" := Str(c.titleEnglish),
      "description" := Str(c.description), "path" := Str(c.path), "order" := Num(c.order)], CategoryRules)
  }

  /** A field compared by one rule only is in the patch exactly when that
      rule finds a difference. */
  lemma PatchHasKey(entity: Value, data: Record, rules: seq<Rule>, i: nat)
    requires i < |rules|
    requires forall j :: 0 <= j < |rules| && j != i ==> rules[j].key != rules[i].key
    ensures rules[i].key in Patch(entity, data, rules) <==> Differs(entity, data, rules[i])
  {
  }

  /** The five compared category fields are distinct and none is `slug`. */
  lemma CategoryKeysDistinct()
    ensures forall i, j :: 0 <= i < |CategoryRules| && 0 <= j < |CategoryRules| && i != j ==>
      CategoryRules[i].key != CategoryRules[j].key
    ensures forall i :: 0 <= i < |CategoryRules| ==> CategoryRules[i].key != "slug"
  {
  }

  /** The two titles are patched exactly when they differ from the seed's
      under `!==`. */
  lemma CategoryTitlesPatched(entity: Value, c: CategorySeed)
    ensures var patch := Patch(entity, CategorySeedOf(c).data, CategoryRules);
      ("titleHindi" in patch <==> Get(entity, "titleHindi") != Str(c.titleHindi))
      && ("titleEnglish" in patch <==> Get(entity, "titleEnglish") != Str(c.titleEnglish))
  {
    CategoryKeysDistinct();
    PatchHasKey(entity, CategorySeedOf(c).data, CategoryRules, 0);
    PatchHasKey(entity, CategorySeedOf(c).data, CategoryRules, 1);
  }

  /** The description, the path and the order are patched exactly when
      they differ from the seed's once a missing value reads as `null`. */
  lemma CategoryOptionalFieldsPatched(entity: Value, c: CategorySeed)
    ensures var patch := Patch(entity, CategorySeedOf(c).data, CategoryRules);
      ("description" in patch <==> Coalesce(Get(entity, "description"), Null) != Str(c.description))
      && ("path" in patch <==> Coalesce(Get(entity, "path"), Null) != Str(c.path))
      && ("order" in patch <==> Coalesce(Get(entity, "order"), Null) != Num(c.order))
  {
    CategoryKeysDistinct();
    PatchHasKey(entity, CategorySeedOf(c).data, CategoryRules, 2);
    PatchHasKey(entity, CategorySeedOf(c).data, CategoryRules, 3);
    PatchHasKey(entity, CategorySeedOf(c).data, CategoryRules, 4);
  }

  /** The slug, the key, is never patched. */
  lemma CategorySlugNeverPatched(entity: Value, c: CategorySeed)
    ensures "slug" !in Patch(entity, CategorySeedOf(c).data, CategoryRules)
  {
    CategoryKeysDistinct();
  }

  /** Category seeding: `existingBySlug`, then the seeds in order. */
  method SeedCategories(entities: seq<Value>, seeds: seq<CategorySeed>, nextId: int) returns (st: Seeded)
    ensures st == SeedAll(Seeded(IndexBy(entities, "slug"), [], nextId), CategorySeeds(seeds))
  {
    st := SeedCollection(entities, "slug", CategorySeeds(seeds), nextId);
  }

  function CategorySeeds(seeds: seq<CategorySeed>): (r: seq<Seed>)
    ensures |r| == |seeds| && forall i :: 0 <= i < |seeds| ==> r[i] == CategorySeedOf(seeds[i])
  {
    seq(|seeds|, i requires 0 <= i < |seeds| => CategorySeedOf(seeds[i]))
  }

  /** Categories with distinct slugs are seeded once: a second run writes
      nothing. */
  lemma CategorySeedingIsIdempotent(index: map<string, Value>, nextId: int, seeds: seq<CategorySeed>)
    requires forall i, j :: 0 <= i < j < |seeds| ==> seeds[i].slug != seeds[j].slug
    ensures var first := SeedAll(Seeded(index, [], nextId), CategorySeeds(seeds));
      SeedAll(Seeded(first.index, [], first.nextId), CategorySeeds(seeds)).writes == []
  {
    SecondRunWritesNothing(index, nextId, CategorySeeds(seeds));
  }

  datatype AuthorSeed = AuthorSeed(name: string, nameHindi: string, email: string, bio: string, role: string)

  /** Authors are matched by email; the name, the Hindi name, the bio and
      the role are compared after `?? null`. */
  const AuthorRules: seq<Rule> := [Rule("name", NullAsEqual), Rule("nameHindi", NullAsEqual), Rule("bio", NullAsEqual),
    Rule("role", NullAsEqual)]

  function AuthorSeedOf(a: AuthorSeed): (r: Seed)
    ensures r.key == a.email && WellFormed(r)
  {
    Seed(a.email, map["name" := Str(a.name), "nameHindi" := Str(a.nameHindi), "email" := Str(a.email),
      "bio" := Str(a.bio), "role" := Str(a.role)], AuthorRules)
  }

  function AuthorSeeds(seeds: seq<AuthorSeed>): (r: seq<Seed>)
    ensures |r| == |seeds| && forall i :: 0 <= i < |seeds| ==> r[i] == AuthorSeedOf(seeds[i])
  {
    seq(|seeds|, i requires 0 <= i < |seeds| => AuthorSeedOf(seeds[i]))
  }

  /** Author seeding: `authorByEmail`, then the seeds in order. */
  method SeedAuthors(entities: seq<Value>, seeds: seq<AuthorSeed>, nextId: int) returns (st: Seeded)
    ensures st == SeedAll(Seeded(IndexBy(entities, "email"), [], nextId), AuthorSeeds(seeds))
  {
    st := SeedCollection(entities, "email", AuthorSeeds(seeds), nextId);
  }

  /** Authors with distinct emails are seeded once. */
  lemma AuthorSeedingIsIdempotent(index: map<string, Value>, nextId: int, seeds: seq<AuthorSeed>)
    requires forall i, j :: 0 <= i < j < |seeds| ==> seeds[i].email != seeds[j].email
    ensures var first := SeedAll(Seeded(index, [], nextId), AuthorSeeds(seeds));
      SeedAll(Seeded(first.index, [], first.nextId), AuthorSeeds(seeds)).writes == []
  {
    SecondRunWritesNothing(index, nextId, AuthorSeeds(seeds));
  }

  /** A page seed: its fields in declaration order, `slug` among them;
      every field is compared with `!==`. */
  datatype PageSeed = PageSeed(slug: string, fields: seq<(string, Value)>)

  /** The object a list of fields spells. */
  function FieldsRecord(fields: seq<(string, Value)>): (r: Record)
    ensures forall k :: k in r <==> exists i :: 0 <= i < |fields| && fields[i].0 == k
  {
    if fields == [] then map[]
    else
      var last := fields[|fields| - 1];
      assert forall i :: 0 <= i < |fields| - 1 ==> fields[..|fields| - 1][i] == fields[i];
      FieldsRecord(fields[..|fields| - 1])[last.0 := last.1]
  }

  /** The rules comparing every field with `!==`. */
  function StrictRules(fields: seq<(string, Value)>): (r: seq<Rule>)
    ensures |r| == |fields| && forall i :: 0 <= i < |fields| ==> r[i] == Rule(fields[i].0, Strict)
  {
    seq(|fields|, i requires 0 <= i < |fields| => Rule(fields[i].0, Strict))
  }

  function PageSeedOf(p: PageSeed): (r: Seed)
    ensures r.key == p.slug && r.rules == StrictRules(p.fields)
  {
    Seed(p.slug, FieldsRecord(p.fields), StrictRules(p.fields))
  }

  /** A page seed whose values are strings, booleans and numbers (the page
      seeds' only kinds) and which has no `id` field is well formed. */
  lemma PageSeedWellFormed(p: PageSeed)
    requires forall i :: 0 <= i < |p.fields| ==> p.fields[i].0 != "id"
    requires forall k :: k in FieldsRecord(p.fields) ==> Plain(FieldsRecord(p.fields)[k])
    ensures WellFormed(PageSeedOf(p))
  {
  }

  /** Pages with distinct slugs, plain fields and no `id` field are seeded
      once: a second run writes nothing. */
  lemma PageSeedingIsIdempotent(index: map<string, Value>, nextId: int, pages: seq<PageSeed>)
    requires forall i, j :: 0 <= i < j < |pages| ==> pages[i].slug != pages[j].slug
    requires forall i, j :: 0 <= i < |pages| && 0 <= j < |pages[i].fields| ==> pages[i].fields[j].0 != "id"
    requires forall i, k :: 0 <= i < |pages| && k in FieldsRecord(pages[i].fields) ==> Plain(FieldsRecord(pages[i].fields)[k])
    ensures var first := SeedAll(Seeded(index, [], nextId), PageSeeds(pages));
      SeedAll(Seeded(first.index, [], first.nextId), PageSeeds(pages)).writes == []
  {
    forall i | 0 <= i < |pages|
      ensures WellFormed(PageSeeds(pages)[i])
    {
      PageSeedWellFormed(pages[i]);
    }
    SecondRunWritesNothing(index, nextId, PageSeeds(pages));
  }

  function PageSeeds(pages: seq<PageSeed>): (r: seq<Seed>)
    ensures |r| == |pages| && forall i :: 0 <= i < |pages| ==> r[i] == PageSeedOf(pages[i])
  {
    seq(|pages|, i requires 0 <= i < |pages| => PageSeedOf(pages[i]))
  }

  /** Page seeding: `pageBySlug`, then the seeds in order. */
  method SeedPages(entities: seq<Value>, pages: seq<PageSeed>, nextId: int) returns (st: Seeded)
    ensures st == SeedAll(Seeded(IndexBy(entities, "slug"), [], nextId), PageSeeds(pages))
  {
    st := SeedCollection(entities, "slug", PageSeeds(pages), nextId);
  }

  /** A value `===` to itself, also after `?? null`: neither an object nor
      an array nor `NaN`. */
  predicate Plain(v: Value) {
    !v.NaN? && !IsObjectLike(v)
  }

  // ---------------------------------------------------------------------------
  // Microsite items

  datatype MicrositeSeed = MicrositeSeed(moduleType: string, slug: string, payload: Value, order: int)

  /** `{ ...payload }`: the properties of an object, none for anything else. */
  function Spread(v: Value): Record {
    if v.Obj? then v.props else map[]
  }

  /** The stored payload: the seed's payload with its slug and order. */
  function SeedPayload(seed: MicrositeSeed): (r: Record)
    ensures "slug" in r && r["slug"] == Str(seed.slug) && "order" in r && r["order"] == Num(seed.order)
    ensures forall k :: k in r && k != "slug" && k != "order" ==> k in Spread(seed.payload) && r[k] == Spread(seed.payload)[k]
  {
    Spread(seed.payload)["slug" := Str(seed.slug)]["order" := Num(seed.order)]
  }

  /** An index column by name. */
  function IndexColumn(index: Index, k: string): Value {
    if k == "type" then Str(index.moduleType)
    else if k == "slug" then index.slug
    else if k == "title" then index.title
    else if k == "titleHindi" then index.titleHindi
    else if k == "name" then index.name
    else if k == "nameHindi" then index.nameHindi
    else if k == "category" then index.category
    else if k == "subcategory" then index.subcategory
    else if k == "status" then index.status
    else if k == "city" then index.city
    else if k == "district" then index.district
    else if k == "date" then index.date
    else if k == "endDate" then index.endDate
    else if k == "featured" then index.featured
    else if k == "popular" then index.popular
    else if k == "image" then index.image
    else if k == "order" then index.order
    else Undefined
  }

  /** The keys of an item's data, every one compared. */
  const MicrositeKeys: seq<string> := ["type", "slug", "title", "titleHindi", "name", "nameHindi", "category",
    "subcategory", "status", "city", "district", "date", "endDate", "featured", "popular", "image", "order", "payload"]

  /** The payload is compared as JSON, every other field after `?? null`. */
  function MicrositeRules(keys: seq<string>): (r: seq<Rule>)
    ensures |r| == |keys|
    ensures forall i :: 0 <= i < |keys| ==> r[i] == Rule(keys[i], if keys[i] == "payload" then Json else NullAsEqual)
  {
    seq(|keys|, i requires 0 <= i < |keys| => Rule(keys[i], if keys[i] == "payload" then Json else NullAsEqual))
  }

  /** A field of `{ ...index, slug, order, payload }`. */
  function MicrositeField(seed: MicrositeSeed, k: string): Value {
    var payload := SeedPayload(seed);
    if k == "payload" then Obj(payload)
    else if k == "slug" then Str(seed.slug)
    else if k == "order" then Num(seed.order)
    else IndexColumn(PickIndexFields(seed.moduleType, Obj(payload)), k)
  }

  /** The data of an item: its index columns, its slug and order, and its
      payload. */
  function MicrositeData(seed: MicrositeSeed): (r: Record)
    ensures forall k :: k in r <==> k in MicrositeKeys
    ensures forall k :: k in r ==> r[k] == MicrositeField(seed, k)
  {
    map k | k in MicrositeKeys :: MicrositeField(seed, k)
  }

  function MicrositeSeedOf(seed: MicrositeSeed): (r: Seed)
    ensures r.key == seed.slug && r.data == MicrositeData(seed)
  {
    Seed(seed.slug, MicrositeData(seed), MicrositeRules(MicrositeKeys))
  }

  /** The position of the first seed without a slug, `|seeds|` when every
      seed has one. */
  function FirstUnslugged(seeds: seq<MicrositeSeed>): (n: nat)
    ensures n <= |seeds|
    ensures forall i :: 0 <= i < n ==> seeds[i].slug != ""
    ensures n < |seeds| ==> seeds[n].slug == ""
  {
    if seeds == [] then 0
    else if seeds[0].slug == "" then 0
    else 1 + FirstUnslugged(seeds[1..])
  }

  function MicrositeSeeds(seeds: seq<MicrositeSeed>): (r: seq<Seed>)
    ensures |r| == |seeds| && forall i :: 0 <= i < |seeds| ==> r[i] == MicrositeSeedOf(seeds[i])
  {
    seq(|seeds|, i requires 0 <= i < |seeds| => MicrositeSeedOf(seeds[i]))
  }

  /** Microsite seeding: the seeds in order until one has no slug, which
      stops the start-up with an error; the writes made before it stay. */
  method SeedMicrosite(entities: seq<Value>, seeds: seq<MicrositeSeed>, nextId: int)
    returns (st: Seeded, error: Option<string>)
    ensures error.Some? <==> FirstUnslugged(seeds) < |seeds|
    ensures error.Some? ==> error.value == "Microsite seed is missing slug"
    ensures st == SeedAll(Seeded(IndexBy(entities, "slug"), [], nextId), MicrositeSeeds(seeds[..FirstUnslugged(seeds)]))
  {
    var stopped;
    st, stopped := SeedUntilKeyless(entities, "slug", MicrositeSeeds(seeds), nextId);
    MicrositeSeedsPrefix(seeds);
    error := if stopped then Some("Microsite seed is missing slug") else None;
  }

  /** The position of the first seed with an empty key, `|seeds|` when
      there is none. */
  function FirstKeyless(seeds: seq<Seed>): (n: nat)
    ensures n <= |seeds|
    ensures forall i :: 0 <= i < n ==> seeds[i].key != ""
    ensures n < |seeds| ==> seeds[n].key == ""
  {
    if seeds == [] then 0
    else if seeds[0].key == "" then 0
    else 1 + FirstKeyless(seeds[1..])
  }

  /** Seeds applied in order; the first one with an empty key stops the
      run, keeping what was written before it. */
  method SeedUntilKeyless(entities: seq<Value>, keyField: string, seeds: seq<Seed>, nextId: int)
    returns (st: Seeded, stopped: bool)
    ensures stopped <==> FirstKeyless(seeds) < |seeds|
    ensures st == SeedAll(Seeded(IndexBy(entities, keyField), [], nextId), seeds[..FirstKeyless(seeds)])
  {
    var index := BuildIndex(entities, keyField);
    var writes: seq<Write> := [];
    var id := nextId;
    var i := 0;
    ghost var n := FirstKeyless(seeds);
    while i < |seeds|
      invariant 0 <= i <= n
      invariant Seeded(index, writes, id) == SeedAll(Seeded(IndexBy(entities, keyField), [], nextId), seeds[..i])
    {
      if seeds[i].key == "" {
        return Seeded(index, writes, id), true;
      }
      assert i < n;
      SeedAllPrefixStep(Seeded(IndexBy(entities, keyField), [], nextId), seeds, i);
      index, writes, id := ApplySeed(index, writes, id, seeds[i]);
      i := i + 1;
    }
    assert seeds[..i] == seeds;
    return Seeded(index, writes, id), false;
  }

  /** The microsite seeds stop where the items do: at the first item
      without a slug. */
  lemma MicrositeSeedsPrefix(seeds: seq<MicrositeSeed>)
    ensures FirstKeyless(MicrositeSeeds(seeds)) == FirstUnslugged(seeds)
    ensures MicrositeSeeds(seeds)[..FirstUnslugged(seeds)] == MicrositeSeeds(seeds[..FirstUnslugged(seeds)])
  {
    var all := MicrositeSeeds(seeds);
    FirstKeylessIs(all, FirstUnslugged(seeds));
  }

  /** The first empty key is at `n` when the keys before `n` are non-empty
      and the one at `n`, if any, is empty. */
  lemma {:induction false} FirstKeylessIs(seeds: seq<Seed>, n: nat)
    requires n <= |seeds|
    requires forall i :: 0 <= i < n ==> seeds[i].key != ""
    requires n < |seeds| ==> seeds[n].key == ""
    ensures FirstKeyless(seeds) == n
  {
    if n > 0 {
      FirstKeylessIs(seeds[1..], n - 1);
    }
  }

  /** The first present of a list of keys of an object with plain values
      is plain. */
  lemma FirstPresentIsPlain(v: Value, keys: seq<string>)
    requires PlainObject(v)
    ensures Plain(FirstPresent(v, keys))
  {
    var i := FirstPresentIsFirst(v, keys);
    if i < |keys| {
      assert v.Obj? && keys[i] in v.props;
      assert keys[i] in Spread(v);
    }
  }

  /** Every index column is plain. */
  predicate PlainIndex(index: Index) {
    Plain(index.slug) && Plain(index.title) && Plain(index.titleHindi) && Plain(index.name) && Plain(index.nameHindi)
    && Plain(index.category) && Plain(index.subcategory) && Plain(index.status) && Plain(index.city)
    && Plain(index.district) && Plain(index.date) && Plain(index.endDate) && Plain(index.featured)
    && Plain(index.popular) && Plain(index.image) && Plain(index.order)
  }

  /** An object whose values are all plain. */
  predicate PlainObject(v: Value) {
    forall k :: k in Spread(v) ==> Plain(Spread(v)[k])
  }

  /** Reading a property of an object with plain values gives a plain value. */
  lemma GetIsPlain(v: Value, k: string)
    requires PlainObject(v)
    ensures Plain(Get(v, k))
  {
    if v.Obj? && k in v.props {
      assert k in Spread(v);
    }
  }

  /** The index columns picked from an object with plain values are plain. */
  lemma PickedIndexIsPlain(moduleType: string, v: Value)
    requires PlainObject(v)
    ensures PlainIndex(PickIndexFields(moduleType, v))
  {
    NamesArePlain(moduleType, v);
    CategoriesArePlain(moduleType, v);
    PlacesArePlain(moduleType, v);
    DatesArePlain(moduleType, v);
    FlagsArePlain(moduleType, v);
  }

  lemma NamesArePlain(moduleType: string, v: Value)
    requires PlainObject(v)
    ensures var r := PickIndexFields(moduleType, v);
      Plain(r.slug) && Plain(r.title) && Plain(r.titleHindi) && Plain(r.name) && Plain(r.nameHindi)
  {
    GetIsPlain(v, "slug");
    GetIsPlain(v, "title");
    GetIsPlain(v, "name");
    GetIsPlain(v, "titleHindi");
    GetIsPlain(v, "nameHindi");
  }

  lemma CategoriesArePlain(moduleType: string, v: Value)
    requires PlainObject(v)
    ensures var r := PickIndexFields(moduleType, v); Plain(r.category) && Plain(r.subcategory)
  {
    GetIsPlain(v, "category");
    GetIsPlain(v, "subcategory");
  }

  lemma PlacesArePlain(moduleType: string, v: Value)
    requires PlainObject(v)
    ensures var r := PickIndexFields(moduleType, v); Plain(r.status) && Plain(r.city) && Plain(r.district)
  {
    GetIsPlain(v, "status");
    GetIsPlain(v, "city");
    GetIsPlain(v, "district");
  }

  lemma DatesArePlain(moduleType: string, v: Value)
    requires PlainObject(v)
    ensures var r := PickIndexFields(moduleType, v); Plain(r.date) && Plain(r.endDate)
  {
    FirstPresentIsPlain(v, DateKeys);
    GetIsPlain(v, "endDate");
  }

  lemma FlagsArePlain(moduleType: string, v: Value)
    requires PlainObject(v)
    ensures var r := PickIndexFields(moduleType, v);
      Plain(r.featured) && Plain(r.popular) && Plain(r.image) && Plain(r.order)
  {
    GetIsPlain(v, "isFeatured");
    GetIsPlain(v, "featured");
    GetIsPlain(v, "isPopular");
    GetIsPlain(v, "popular");
    GetIsPlain(v, "image");
    GetIsPlain(v, "order");
  }

  /** A column of a plain index is plain. */
  lemma IndexColumnIsPlain(index: Index, k: string)
    requires PlainIndex(index)
    ensures Plain(IndexColumn(index, k))
  {
  }

  /** Each field of an item with a plain payload equals itself under its
      comparison. */
  lemma MicrositeFieldSelfSame(seed: MicrositeSeed, k: string)
    requires forall k :: k in Spread(seed.payload) ==> Plain(Spread(seed.payload)[k])
    ensures SelfSame(if k == "payload" then Json else NullAsEqual, MicrositeField(seed, k))
  {
    if k != "payload" && k != "slug" && k != "order" {
      var payload := SeedPayload(seed);
      assert PlainObject(Obj(payload));
      PickedIndexIsPlain(seed.moduleType, Obj(payload));
      IndexColumnIsPlain(PickIndexFields(seed.moduleType, Obj(payload)), k);
    }
  }

  /** Every compared key of an item is a column other than `id`. */
  lemma MicrositeKeyIsNotId(i: nat)
    requires i < |MicrositeKeys|
    ensures MicrositeKeys[i] in MicrositeKeys && MicrositeKeys[i] != "id"
  {
    assert |MicrositeKeys[i]| != 2;
  }

  /** An item whose payload holds no object, array or `NaN` (the demo
      items hold strings, numbers and booleans) is well formed. */
  lemma MicrositeSeedWellFormed(seed: MicrositeSeed)
    requires forall k :: k in Spread(seed.payload) ==> Plain(Spread(seed.payload)[k])
    ensures WellFormed(MicrositeSeedOf(seed))
  {
    var ms := MicrositeSeedOf(seed);
    assert ms.rules == MicrositeRules(MicrositeKeys);
    forall i | 0 <= i < |ms.rules|
      ensures ms.rules[i].key != "id" && SelfSame(ms.rules[i].cmp, Field(ms.data, ms.rules[i].key))
    {
      var k := MicrositeKeys[i];
      MicrositeKeyIsNotId(i);
      assert Field(ms.data, k) == MicrositeField(seed, k);
      MicrositeFieldSelfSame(seed, k);
    }
  }

  /** Microsite items with distinct slugs and plain payloads are seeded
      once: a second run writes nothing. */
  lemma MicrositeSeedingIsIdempotent(index: map<string, Value>, nextId: int, seeds: seq<MicrositeSeed>)
    requires forall i, j :: 0 <= i < j < |seeds| ==> seeds[i].slug != seeds[j].slug
    requires forall i, k :: 0 <= i < |seeds| && k in Spread(seeds[i].payload) ==> Plain(Spread(seeds[i].payload)[k])
    ensures var first := SeedAll(Seeded(index, [], nextId), MicrositeSeeds(seeds));
      SeedAll(Seeded(first.index, [], first.nextId), MicrositeSeeds(seeds)).writes == []
  {
    forall i | 0 <= i < |seeds|
      ensures WellFormed(MicrositeSeeds(seeds)[i])
    {
      MicrositeSeedWellFormed(seeds[i]);
    }
    SecondRunWritesNothing(index, nextId, MicrositeSeeds(seeds));
  }

  // ---------------------------------------------------------------------------
  // Article slug de-duplication
  //
  // The grouping is stated for any key function; the articles are keyed by
  // `ArticleSlug`.

  /** `String(entity.slug)` for an article whose slug is truthy; `None` for
      one that is skipped. */
  function ArticleSlug(e: Value): (r: Option<string>)
    ensures r.Some? <==> Truthy(Get(e, "slug"))
    ensures r.Some? ==> e.Obj? && r.value == ToStr(e.props["slug"])
  {
    if Truthy(Get(e, "slug")) then Some(ToStr(Get(e, "slug"))) else None
  }

  /** The elements with key `k`, in stored order. */
  function Group(s: seq<Value>, key: Value -> Option<string>, k: string): (r: seq<Value>)
    ensures |r| <= |s|
  {
    if s == [] then []
    else if key(s[|s| - 1]) == Some(k) then Group(s[..|s| - 1], key, k) + [s[|s| - 1]]
    else Group(s[..|s| - 1], key, k)
  }

  /** Every element of a group has the group's key. */
  lemma {:induction false} GroupHasKey(s: seq<Value>, key: Value -> Option<string>, k: string)
    ensures forall i :: 0 <= i < |Group(s, key, k)| ==> key(Group(s, key, k)[i]) == Some(k)
  {
    if s != [] {
      GroupHasKey(s[..|s| - 1], key, k);
    }
  }

  /** The keys, each once, in order of first appearance (the iteration
      order of a JavaScript `Map`). */
  function KeyOrder(s: seq<Value>, key: Value -> Option<string>): (r: seq<string>)
    ensures forall k :: k in r <==> Group(s, key, k) != []
    ensures forall i, j :: 0 <= i < j < |r| ==> r[i] != r[j]
  {
    if s == [] then []
    else if key(s[|s| - 1]).Some? && key(s[|s| - 1]).value !in KeyOrder(s[..|s| - 1], key) then
      KeyOrder(s[..|s| - 1], key) + [key(s[|s| - 1]).value]
    else KeyOrder(s[..|s| - 1], key)
  }

  /** All but the first element; nothing of an empty sequence. */
  function Tail<T>(s: seq<T>): (r: seq<T>)
    ensures |r| == if s == [] then 0 else |s| - 1
    ensures forall i :: 0 <= i < |r| ==> r[i] == s[i + 1]
  {
    if s == [] then [] else s[1..]
  }

  /** The elements deleted for the keys of `order`: every element after
      the first of its key, key by key. */
  function Duplicates(s: seq<Value>, key: Value -> Option<string>, order: seq<string>): (r: seq<Value>)
    ensures forall i :: 0 <= i < |r| ==> key(r[i]).Some? && key(r[i]).value in order
  {
    if order == [] then []
    else
      var init := Duplicates(s, key, order[..|order| - 1]);
      GroupHasKey(s, key, order[|order| - 1]);
      init + Tail(Group(s, key, order[|order| - 1]))
  }

  /** The slug de-duplication at start-up: the articles are grouped by
      slug; for a slug with several articles the first is kept and every
      later one is deleted. The returned map gives the article each slug
      resolves to afterwards. */
  method DedupeArticles(existing: seq<Value>) returns (bySlug: map<string, Value>, deleted: seq<Value>)
    ensures forall k :: k in bySlug <==> Group(existing, ArticleSlug, k) != []
    ensures forall k :: k in bySlug ==> bySlug[k] == Group(existing, ArticleSlug, k)[0]
    ensures deleted == Duplicates(existing, ArticleSlug, KeyOrder(existing, ArticleSlug))
  {
    var order, buckets, latest := GroupByKey(existing, ArticleSlug);
    forall k | k in buckets
      ensures Truthy(buckets[k][0])
    {
      // only an object has a truthy slug, and an object is truthy
      GroupHasKey(existing, ArticleSlug, k);
      assert ArticleSlug(buckets[k][0]).Some?;
    }
    bySlug, deleted := DeleteLaterDuplicates(order, buckets, latest);
    DropFirstsAreDuplicates(existing, ArticleSlug, order, buckets);
  }

  /** `order`, `buckets` and `latest` describe `s`: the keys in order of
      first appearance, each key's elements, and the last element of each
      key. */
  ghost predicate Grouped(s: seq<Value>, key: Value -> Option<string>, order: seq<string>,
    buckets: map<string, seq<Value>>, latest: map<string, Value>)
  {
    && order == KeyOrder(s, key)
    && (forall k :: (k in buckets <==> k in order) && (k in latest <==> k in order))
    && (forall k :: k in buckets ==> buckets[k] == Group(s, key, k))
    && (forall k :: k in buckets ==> buckets[k] != [] && latest[k] == buckets[k][|buckets[k]| - 1])
  }

  /** The first pass: each key's elements in stored order, the keys in
      order of first appearance, and the last element seen for each key. */
  method GroupByKey(existing: seq<Value>, key: Value -> Option<string>)
    returns (order: seq<string>, buckets: map<string, seq<Value>>, latest: map<string, Value>)
    ensures Grouped(existing, key, order, buckets, latest)
  {
    buckets := map[];
    order := [];
    latest := map[];
    for i := 0 to |existing|
      invariant Grouped(existing[..i], key, order, buckets, latest)
    {
      assert existing[..i + 1] == existing[..i] + [existing[i]];
      order, buckets, latest := GroupOne(existing[..i], key, order, buckets, latest, existing[i]);
    }
    assert existing[..|existing|] == existing;
  }

  /** One element of the first pass: a keyed one joins its key's bucket
      and becomes the key's latest; an unkeyed one is skipped. */
  method GroupOne(ghost s: seq<Value>, key: Value -> Option<string>, order: seq<string>,
    buckets: map<string, seq<Value>>, latest: map<string, Value>, entity: Value)
    returns (order': seq<string>, buckets': map<string, seq<Value>>, latest': map<string, Value>)
    requires Grouped(s, key, order, buckets, latest)
    ensures Grouped(s + [entity], key, order', buckets', latest')
  {
    var slug := key(entity);
    if slug.Some? {
      var k := slug.value;
      GroupedKeyed(s, key, order, buckets, latest, entity);
      order' := if k in buckets then order else order + [k];
      buckets' := buckets[k := (if k in buckets then buckets[k] else []) + [entity]];
      latest' := latest[k := entity];
    } else {
      GroupStep(s, key, entity);
      order', buckets', latest' := order, buckets, latest;
    }
  }

  /** A keyed element extends the grouping. */
  lemma GroupedKeyed(s: seq<Value>, key: Value -> Option<string>, order: seq<string>,
    buckets: map<string, seq<Value>>, latest: map<string, Value>, e: Value)
    requires Grouped(s, key, order, buckets, latest) && key(e).Some?
    ensures var k := key(e).value;
      Grouped(s + [e], key, if k in buckets then order else order + [k],
        buckets[k := (if k in buckets then buckets[k] else []) + [e]], latest[k := e])
  {
    var k := key(e).value;
    var order' := if k in buckets then order else order + [k];
    var buckets' := buckets[k := (if k in buckets then buckets[k] else []) + [e]];
    var latest' := latest[k := e];
    KeyedKeys(s, key, order, buckets, latest, e);
    KeyedGroups(s, key, order, buckets, e);
    KeyedLatest(buckets, latest, k, e);
    assert Grouped(s + [e], key, order', buckets', latest');
  }

  /** A keyed element keeps the order, the buckets and the latest elements on the same keys. */
  lemma KeyedKeys(s: seq<Value>, key: Value -> Option<string>, order: seq<string>,
    buckets: map<string, seq<Value>>, latest: map<string, Value>, e: Value)
    requires Grouped(s, key, order, buckets, latest) && key(e).Some?
    ensures var k := key(e).value;
      var order' := if k in buckets then order else order + [k];
      order' == KeyOrder(s + [e], key)
      && forall j :: (j in buckets[k := []] <==> j in order') && (j in latest[k := e] <==> j in order')
  {
    KeyedOrder(s, key, order, buckets, e);
  }

  /** A keyed element joins its key's bucket, the buckets being the groups. */
  lemma KeyedGroups(s: seq<Value>, key: Value -> Option<string>, order: seq<string>,
    buckets: map<string, seq<Value>>, e: Value)
    requires order == KeyOrder(s, key) && (forall k :: k in buckets <==> k in order)
    requires forall k :: k in buckets ==> buckets[k] == Group(s, key, k)
    requires key(e).Some?
    ensures var k := key(e).value;
      var buckets' := buckets[k := (if k in buckets then buckets[k] else []) + [e]];
      forall j :: j in buckets' ==> buckets'[j] == Group(s + [e], key, j)
  {
    forall j | j !in buckets ensures Group(s, key, j) == [] {
      assert j !in KeyOrder(s, key);
    }
    KeyedBuckets(s, key, buckets, e);
  }

  /** A keyed element adds its key to the order when the key is new. */
  lemma KeyedOrder(s: seq<Value>, key: Value -> Option<string>, order: seq<string>, buckets: map<string, seq<Value>>,
    e: Value)
    requires order == KeyOrder(s, key) && (forall k :: k in buckets <==> k in order) && key(e).Some?
    ensures var k := key(e).value;
      (if k in buckets then order else order + [k]) == KeyOrder(s + [e], key)
  {
    GroupStep(s, key, e);
  }

  /** A keyed element joins its key's bucket. */
  lemma KeyedBuckets(s: seq<Value>, key: Value -> Option<string>, buckets: map<string, seq<Value>>, e: Value)
    requires forall k :: k in buckets ==> buckets[k] == Group(s, key, k)
    requires forall k :: k !in buckets ==> Group(s, key, k) == []
    requires key(e).Some?
    ensures var slug := key(e).value;
      var buckets' := buckets[slug := (if slug in buckets then buckets[slug] else []) + [e]];
      forall k :: k in buckets' ==> buckets'[k] == Group(s + [e], key, k)
  {
    GroupStep(s, key, e);
  }

  /** The element becomes the last of its key's bucket. */
  lemma KeyedLatest(buckets: map<string, seq<Value>>, latest: map<string, Value>, slug: string, e: Value)
    requires forall k :: k in buckets ==> k in latest && buckets[k] != [] && latest[k] == buckets[k][|buckets[k]| - 1]
    ensures var buckets' := buckets[slug := (if slug in buckets then buckets[slug] else []) + [e]];
      var latest' := latest[slug := e];
      forall k :: k in buckets' ==> buckets'[k] != [] && latest'[k] == buckets'[k][|buckets'[k]| - 1]
  {
  }

  /** One more element adds itself to its key's group, and its key to the
      order when the key is new. */
  lemma GroupStep(s: seq<Value>, key: Value -> Option<string>, e: Value)
    ensures forall k :: (Group(s + [e], key, k) ==
      if key(e) == Some(k) then Group(s, key, k) + [e] else Group(s, key, k))
    ensures KeyOrder(s + [e], key) ==
      if key(e).Some? && key(e).value !in KeyOrder(s, key) then KeyOrder(s, key) + [key(e).value] else KeyOrder(s, key)
  {
    assert (s + [e])[..|s|] == s;
  }

  /** The later elements of each key's bucket, key by key. */
  function DropFirsts(buckets: map<string, seq<Value>>, order: seq<string>): seq<Value>
    requires forall i :: 0 <= i < |order| ==> order[i] in buckets
  {
    if order == [] then [] else DropFirsts(buckets, order[..|order| - 1]) + Tail(buckets[order[|order| - 1]])
  }

  /** The second pass: for each key with several elements, the later ones
      are deleted and the key resolves to the first. */
  method DeleteLaterDuplicates(order: seq<string>, buckets: map<string, seq<Value>>, latest: map<string, Value>)
    returns (bySlug: map<string, Value>, deleted: seq<Value>)
    requires forall i, j :: 0 <= i < j < |order| ==> order[i] != order[j]
    requires forall k :: (k in buckets <==> k in order) && (k in latest <==> k in order)
    requires forall k :: k in buckets ==> buckets[k] != [] && latest[k] == buckets[k][|buckets[k]| - 1]
    requires forall k :: k in buckets ==> Truthy(buckets[k][0])
    ensures forall k :: k in bySlug <==> k in order
    ensures forall k :: k in bySlug ==> bySlug[k] == buckets[k][0]
    ensures deleted == DropFirsts(buckets, order)
  {
    bySlug := latest;
    deleted := [];
    for j := 0 to |order|
      invariant deleted == DropFirsts(buckets, order[..j])
      invariant Resolved(bySlug, buckets, latest, order[..j])
    {
      OrderStep(buckets, order, j);
      bySlug, deleted := ResolveKey(bySlug, deleted, order[..j], order[j], buckets, latest);
    }
    assert order[..|order|] == order;
    ResolvedAll(bySlug, buckets, latest, order);
  }

  /** `bySlug` has the keys of `buckets`; the keys of `done` resolve to their
      first element, the others still to their latest. */
  ghost predicate Resolved(bySlug: map<string, Value>, buckets: map<string, seq<Value>>, latest: map<string, Value>,
    done: seq<string>)
  {
    && (forall k :: k in bySlug <==> k in buckets)
    && (forall k :: k in bySlug && k in done ==> buckets[k] != [] && bySlug[k] == buckets[k][0])
    && (forall k :: k in bySlug && k !in done ==> k in latest && bySlug[k] == latest[k])
  }

  /** Once every key is done, each resolves to its first element. */
  lemma ResolvedAll(bySlug: map<string, Value>, buckets: map<string, seq<Value>>, latest: map<string, Value>,
    order: seq<string>)
    requires Resolved(bySlug, buckets, latest, order)
    requires forall k :: k in buckets <==> k in order
    ensures forall k :: k in bySlug <==> k in order
    ensures forall k :: k in bySlug ==> bySlug[k] == buckets[k][0]
  {
  }

  /** One key of the second pass, `slug` not yet done: its later elements
      join the deleted ones and it resolves to its first element. */
  method ResolveKey(bySlug: map<string, Value>, deleted: seq<Value>, ghost done: seq<string>, slug: string,
    buckets: map<string, seq<Value>>, latest: map<string, Value>)
    returns (bySlug': map<string, Value>, deleted': seq<Value>)
    requires Resolved(bySlug, buckets, latest, done) && slug !in done
    requires slug in buckets && buckets[slug] != [] && Truthy(buckets[slug][0])
    requires slug in latest && latest[slug] == buckets[slug][|buckets[slug]| - 1]
    ensures Resolved(bySlug', buckets, latest, done + [slug])
    ensures deleted' == deleted + Tail(buckets[slug])
  {
    bySlug', deleted' := ResolveOne(bySlug, deleted, slug, buckets[slug]);
    ResolvedStep(bySlug, buckets, latest, done, slug);
  }

  /** Resolving one more key to its first element extends `done` by that key. */
  lemma ResolvedStep(bySlug: map<string, Value>, buckets: map<string, seq<Value>>, latest: map<string, Value>,
    done: seq<string>, slug: string)
    requires Resolved(bySlug, buckets, latest, done)
    requires slug in buckets && buckets[slug] != []
    ensures Resolved(bySlug[slug := buckets[slug][0]], buckets, latest, done + [slug])
  {
  }

  /** One key of the second pass: with several elements, the later ones
      are deleted and the key resolves to the first (`if (keep)`). */
  method ResolveOne(bySlug: map<string, Value>, deleted: seq<Value>, slug: string, entities: seq<Value>)
    returns (bySlug': map<string, Value>, deleted': seq<Value>)
    requires slug in bySlug && entities != [] && bySlug[slug] == entities[|entities| - 1] && Truthy(entities[0])
    ensures bySlug' == bySlug[slug := entities[0]]
    ensures deleted' == deleted + Tail(entities)
  {
    bySlug', deleted' := bySlug, deleted;
    if |entities| > 1 {
      var keep := entities[0];
      deleted' := DeleteEach(deleted, entities[1..]);
      if Truthy(keep) {
        bySlug' := bySlug[slug := keep];
      }
    } else {
      assert bySlug == bySlug[slug := entities[0]];
    }
  }

  /** One more key adds its later elements to the deleted ones; the key
      was not handled before. */
  lemma OrderStep(buckets: map<string, seq<Value>>, order: seq<string>, j: nat)
    requires j < |order|
    requires forall i, j :: 0 <= i < j < |order| ==> order[i] != order[j]
    requires forall i :: 0 <= i < |order| ==> order[i] in buckets
    ensures DropFirsts(buckets, order[..j + 1]) == DropFirsts(buckets, order[..j]) + Tail(buckets[order[j]])
    ensures order[j] !in order[..j]
    ensures order[..j + 1] == order[..j] + [order[j]]
  {
    assert order[..j + 1][..j] == order[..j];
    assert order[..j + 1] == order[..j] + [order[j]];
  }

  /** With the buckets of the first pass, the deleted elements are the
      later elements of each key's group. */
  lemma {:induction false} DropFirstsAreDuplicates(s: seq<Value>, key: Value -> Option<string>, order: seq<string>,
    buckets: map<string, seq<Value>>)
    requires forall k :: k in order ==> k in buckets && buckets[k] == Group(s, key, k)
    ensures DropFirsts(buckets, order) == Duplicates(s, key, order)
  {
    if order != [] {
      DropFirstsAreDuplicates(s, key, order[..|order| - 1], buckets);
    }
  }

  /** `for (const dupe of duplicates) delete(dupe.id)`: each duplicate, in
      order, joins the deleted ones; a failed delete is ignored. */
  method DeleteEach(deleted: seq<Value>, duplicates: seq<Value>) returns (r: seq<Value>)
    ensures r == deleted + duplicates
  {
    r := deleted;
    for d := 0 to |duplicates|
      invariant r == deleted + duplicates[..d]
    {
      assert duplicates[..d + 1] == duplicates[..d] + [duplicates[d]];
      r := r + [duplicates[d]];
    }
    assert duplicates[..|duplicates|] == duplicates;
  }

  /** Grouping distributes over concatenation. */
  lemma {:induction false} GroupAppend(a: seq<Value>, b: seq<Value>, key: Value -> Option<string>, k: string)
    ensures Group(a + b, key, k) == Group(a, key, k) + Group(b, key, k)
    decreases |b|
  {
    if b == [] {
      assert a + b == a;
    } else {
      var n := |b| - 1;
      assert (a + b)[..|a + b| - 1] == a + b[..n];
      assert (a + b)[|a + b| - 1] == b[n];
      GroupAppend(a, b[..n], key, k);
    }
  }

  /** Grouping a run of elements that all have key `j` by key `k` keeps the
      whole run when `j == k` and nothing otherwise. */
  lemma {:induction false} GroupOfRun(run: seq<Value>, key: Value -> Option<string>, j: string, k: string)
    requires forall i :: 0 <= i < |run| ==> key(run[i]) == Some(j)
    ensures Group(run, key, k) == if j == k then run else []
  {
    if run != [] {
      GroupOfRun(run[..|run| - 1], key, j, k);
    }
  }

  /** The deleted elements with key `k` are exactly the elements with that
      key after the first, in stored order. */
  lemma {:induction false} DeletedAreLaterDuplicates(s: seq<Value>, key: Value -> Option<string>, order: seq<string>, k: string)
    requires forall i, j :: 0 <= i < j < |order| ==> order[i] != order[j]
    ensures Group(Duplicates(s, key, order), key, k) == if k in order then Tail(Group(s, key, k)) else []
  {
    if order != [] {
      var init := order[..|order| - 1];
      var last := order[|order| - 1];
      DeletedAreLaterDuplicates(s, key, init, k);
      GroupAppend(Duplicates(s, key, init), Tail(Group(s, key, last)), key, k);
      GroupHasKey(s, key, last);
      GroupOfRun(Tail(Group(s, key, last)), key, last, k);
      assert k in order <==> k in init || k == last;
      if k == last {
        assert k !in init;
      }
    }
  }

  /** After de-duplication every slug keeps its first article and loses
      the rest: the deleted articles with slug `k` are those after the
      first, and an article without a truthy slug is never deleted. */
  lemma DedupeKeepsFirst(existing: seq<Value>, k: string)
    ensures Group(Duplicates(existing, ArticleSlug, KeyOrder(existing, ArticleSlug)), ArticleSlug, k) ==
      Tail(Group(existing, ArticleSlug, k))
  {
    DeletedAreLaterDuplicates(existing, ArticleSlug, KeyOrder(existing, ArticleSlug), k);
  }
}
