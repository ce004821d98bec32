/** The microsite items (exams, results, institutions, holidays, shops,
    places, events): each stores its full record as a JSON `payload` plus a
    handful of index columns picked from it for filtering and sorting. */
module Microsite {
  import opened Wrappers
  import opened Text
  import opened Js

  const ModuleTypes: seq<string> := ["exam", "result", "institution", "holiday", "restaurant", "fashion-store",
    "shopping-centre", "famous-place", "event"]

  /** `isModuleType`: a string naming one of the nine modules. */
  predicate IsModuleType(v: Value)
    ensures IsModuleType(v) ==> v.Str? && v.s != [] && NoSpaceAtEdges(v.s)
  {
    ModuleTypeSpelling();
    v.Str? && v.s in ModuleTypes
  }

  /** The module types are non-empty words without blanks at their ends. */
  lemma ModuleTypeSpelling()
    ensures forall k :: k in ModuleTypes ==> k != [] && NoSpaceAtEdges(k)
  {
  }

  /** `normalizeItem`: the payload's properties with the id in front; a
      payload `id` wins, because the payload is spread after it. */
  function NormalizeItem(entity: Option<Record>): (r: Option<Record>)
    ensures entity.None? <==> r.None?
    ensures entity.Some? && !Has(Field(entity.value, "payload"), "id") ==>
      "id" in r.value && r.value["id"] == Str(ToStr(Field(entity.value, "id")))
    ensures entity.Some? && Field(entity.value, "payload").Obj? ==>
      var body := Field(entity.value, "payload").props;
      (forall k :: k in body ==> k in r.value && r.value[k] == body[k])
      && (forall k :: k in r.value ==> k in body || k == "id")
    ensures entity.Some? && !Field(entity.value, "payload").Obj? ==> r.value == map["id" := Str(ToStr(Field(entity.value, "id")))]
  {
    match entity
    case None => None
    case Some(e) =>
      var payload := Field(e, "payload");
      var body := if payload.Obj? then payload.props else map[];
      Some(map["id" := Str(ToStr(Field(e, "id")))] + body)
  }

  /** The first of `keys` whose value is neither null nor undefined
      (`v.a ?? v.b ?? … ?? undefined`). */
  function FirstPresent(v: Value, keys: seq<string>): (r: Value)
    ensures r == Undefined || !Nullish(r)
  {
    if keys == [] then Undefined
    else Coalesce(Get(v, keys[0]), FirstPresent(v, keys[1..]))
  }

  /** The first present key decides: every key before it is absent. */
  lemma {:induction false} FirstPresentIsFirst(v: Value, keys: seq<string>) returns (i: nat)
    ensures i <= |keys|
    ensures forall j :: 0 <= j < i ==> Nullish(Get(v, keys[j]))
    ensures i < |keys| ==> !Nullish(Get(v, keys[i])) && FirstPresent(v, keys) == Get(v, keys[i])
    ensures i == |keys| ==> FirstPresent(v, keys) == Undefined
  {
    if keys == [] {
      i := 0;
    } else if !Nullish(Get(v, keys[0])) {
      i := 0;
    } else {
      var k := FirstPresentIsFirst(v, keys[1..]);
      i := k + 1;
      forall j | 0 <= j < i
        ensures Nullish(Get(v, keys[j]))
      {
        if j > 0 { assert keys[j] == keys[1..][j - 1]; }
      }
    }
  }

  /** The payload `type` when it is a string but not a module type: a
      category given the old way. */
  function Subtype(value: Value): (r: Value)
    ensures r.Str? || r.Undefined?
  {
    var t := Get(value, "type");
    if t.Str? && !IsModuleType(t) then t else Undefined
  }

  const DateKeys: seq<string> := ["examDate", "resultDate", "date", "publishedAt"]

  /** The index columns stored beside the payload. */
  datatype Index = Index(moduleType: string, slug: Value, title: Value, titleHindi: Value, name: Value,
    nameHindi: Value, category: Value, subcategory: Value, status: Value, city: Value, district: Value,
    date: Value, endDate: Value, featured: Value, popular: Value, image: Value, order: Value)

  /** A stored item: its index columns and its payload. */
  datatype Item = Item(index: Index, payload: Record)

  /** `v ?? undefined`: a present value, else undefined (never null). */
  function Defined(v: Value): (r: Value)
    ensures r != Null
    ensures !Nullish(v) ==> r == v
    ensures Nullish(v) ==> r == Undefined
  {
    Coalesce(v, Undefined)
  }

  /** No index column but the slug is ever null: every other column ends
      in `?? undefined` or is built from values that are never null. */
  predicate NoNullColumn(x: Index) {
    x.title != Null && x.titleHindi != Null && x.name != Null && x.nameHindi != Null && x.category != Null
    && x.subcategory != Null && x.status != Null && x.city != Null && x.district != Null && x.date != Null
    && x.endDate != Null && x.featured != Null && x.popular != Null && x.image != Null && x.order != Null
  }

  /** `pickIndexFields`: the index columns of an item. */
  function PickIndexFields(moduleType: string, value: Value): (r: Index)
    ensures r.moduleType == moduleType
    ensures r.slug == Get(value, "slug")
    ensures NoNullColumn(r)
    ensures !Nullish(Get(value, "name")) ==> r.name == Get(value, "name")
    ensures Nullish(Get(value, "name")) ==> r.name == Undefined
    ensures !Nullish(Get(value, "city")) ==> r.city == Get(value, "city")
    ensures Nullish(Get(value, "city")) ==> r.city == Undefined
  {
    var subtype := Subtype(value);
    Index(
      moduleType,
      Get(value, "slug"),
      Defined(Coalesce(Get(value, "title"), Get(value, "name"))),
      Defined(Coalesce(Get(value, "titleHindi"), Get(value, "nameHindi"))),
      Defined(Get(value, "name")),
      Defined(Get(value, "nameHindi")),
      Defined(Coalesce(Get(value, "category"), subtype)),
      Coalesce(Get(value, "subcategory"), if Truthy(Get(value, "category")) && Truthy(subtype) then subtype else Undefined),
      Defined(Get(value, "status")),
      Defined(Get(value, "city")),
      Defined(Get(value, "district")),
      FirstPresent(value, DateKeys),
      Defined(Get(value, "endDate")),
      Defined(Coalesce(Get(value, "isFeatured"), Get(value, "featured"))),
      Defined(Coalesce(Get(value, "isPopular"), Get(value, "popular"))),
      Defined(Get(value, "image")),
      Defined(Get(value, "order")))
  }

  /** Titles fall back to names only when absent: an empty title is kept,
      and an absent title and name give undefined, never null. */
  lemma TitleFallsBackToName(moduleType: string, value: Value)
    ensures !Nullish(Get(value, "title")) ==> PickIndexFields(moduleType, value).title == Get(value, "title")
    ensures Nullish(Get(value, "title")) && !Nullish(Get(value, "name")) ==>
      PickIndexFields(moduleType, value).title == Get(value, "name")
    ensures Nullish(Get(value, "title")) && Nullish(Get(value, "name")) ==>
      PickIndexFields(moduleType, value).title == Undefined
    ensures !Nullish(Get(value, "titleHindi")) ==> PickIndexFields(moduleType, value).titleHindi == Get(value, "titleHindi")
    ensures Nullish(Get(value, "titleHindi")) && !Nullish(Get(value, "nameHindi")) ==>
      PickIndexFields(moduleType, value).titleHindi == Get(value, "nameHindi")
    ensures Nullish(Get(value, "titleHindi")) && Nullish(Get(value, "nameHindi")) ==>
      PickIndexFields(moduleType, value).titleHindi == Undefined
  {
  }

  /** A non-module `type` string fills the category when none is given, and
      otherwise the subcategory when a category is given but no subcategory. */
  lemma SubtypeFillsCategory(moduleType: string, value: Value, t: string)
    requires Get(value, "type") == Str(t) && t !in ModuleTypes
    ensures Nullish(Get(value, "category")) ==> PickIndexFields(moduleType, value).category == Str(t)
    ensures t != [] && Truthy(Get(value, "category")) && Nullish(Get(value, "subcategory")) ==>
      PickIndexFields(moduleType, value).subcategory == Str(t)
    ensures !Nullish(Get(value, "category")) ==> PickIndexFields(moduleType, value).category == Get(value, "category")
  {
  }

  /** The index date is the first present of the exam date, the result date,
      the date and the publication date. */
  lemma IndexDatePrecedence(moduleType: string, value: Value)
    ensures !Nullish(Get(value, "examDate")) ==> PickIndexFields(moduleType, value).date == Get(value, "examDate")
    ensures Nullish(Get(value, "examDate")) && !Nullish(Get(value, "resultDate")) ==>
      PickIndexFields(moduleType, value).date == Get(value, "resultDate")
    ensures Nullish(Get(value, "examDate")) && Nullish(Get(value, "resultDate")) && !Nullish(Get(value, "date")) ==>
      PickIndexFields(moduleType, value).date == Get(value, "date")
    ensures Nullish(Get(value, "examDate")) && Nullish(Get(value, "resultDate")) && Nullish(Get(value, "date")) ==>
      PickIndexFields(moduleType, value).date == Coalesce(Get(value, "publishedAt"), Undefined)
  {
    var i := FirstPresentIsFirst(value, DateKeys);
    assert DateKeys[0] == "examDate" && DateKeys[1] == "resultDate" && DateKeys[2] == "date" && DateKeys[3] == "publishedAt";
  }

  /** The request body without `moduleType`, and without `type` when `type`
      names a module. */
  function Incoming(value: Value): (r: Record)
    ensures "moduleType" !in r
    ensures "type" in r <==> Has(value, "type") && !IsModuleType(Get(value, "type"))
    ensures forall k :: k in r ==> Has(value, k) && r[k] == Get(value, k)
    ensures forall k :: Has(value, k) && k != "moduleType" && k != "type" ==> k in r
  {
    if value.Obj? then
      var rest := value.props - {"moduleType"};
      if "type" in rest && IsModuleType(rest["type"]) then rest - {"type"} else rest
    else map[]
  }

  datatype Rejection = BadRequest(message: string) | NotFound(message: string)

  /** The module type of a create request: the trimmed `moduleType`, else a
      string `type`, when it names a module. */
  function RequestedModule(value: Value): (r: Option<string>)
    ensures r.Some? ==> r.value in ModuleTypes
  {
    var candidate := match ParseString(Get(value, "moduleType"))
      case Some(m) => Some(m)
      case None => if Get(value, "type").Str? then Some(Get(value, "type").s) else None;
    if candidate.Some? && candidate.value in ModuleTypes then candidate else None
  }

  /** The item `create` writes: the index columns and the payload. */
  function CreateItem(value: Value): (r: Result<Item, Rejection>)
    ensures r.Err? <==> RequestedModule(value).None? || !Truthy(Get(value, "slug"))
    ensures r.Ok? ==>
      r.value.payload == Incoming(value)
      && r.value.index == PickIndexFields(RequestedModule(value).value, Obj(Incoming(value)))
      && r.value.index.moduleType == RequestedModule(value).value
  {
    var moduleType := RequestedModule(value);
    if moduleType.None? || !Truthy(Get(value, "slug")) then Err(BadRequest("moduleType and slug are required"))
    else
      var payload := Incoming(value);
      Ok(Item(PickIndexFields(moduleType.value, Obj(payload)), payload))
  }

  /** The payload after an update: the stored payload with the incoming
      keys written over it. */
  function MergedPayload(stored: Value, incoming: Record): (r: Record)
    ensures forall k :: k in incoming ==> k in r && r[k] == incoming[k]
    ensures stored.Obj? ==> forall k :: k in stored.props && k !in incoming ==> k in r && r[k] == stored.props[k]
    ensures forall k :: k in r ==> k in incoming || (stored.Obj? && k in stored.props)
  {
    if stored.Obj? then stored.props + incoming else incoming
  }

  /** The item `update` writes: a missing item is not found, an item whose
      stored type is not a module type is refused, and otherwise the merged
      payload with its index columns recomputed from it. */
  function UpdateItem(existing: Option<Record>, value: Value): (r: Result<Item, Rejection>)
    ensures existing.None? ==> r == Err(NotFound("Item not found"))
    ensures existing.Some? && !IsModuleType(Field(existing.value, "type")) ==> r == Err(BadRequest("Invalid module type"))
    ensures existing.Some? && IsModuleType(Field(existing.value, "type")) ==>
      var next := MergedPayload(Field(existing.value, "payload"), Incoming(value));
      r.Ok? && Str(r.value.index.moduleType) == Field(existing.value, "type")
      && r.value.payload == next
      && r.value.index == PickIndexFields(Field(existing.value, "type").s, Obj(next))
  {
    match existing
    case None => Err(NotFound("Item not found"))
    case Some(e) =>
      if !IsModuleType(Field(e, "type")) then Err(BadRequest("Invalid module type"))
      else
        var next := MergedPayload(Field(e, "payload"), Incoming(value));
        Ok(Item(PickIndexFields(Field(e, "type").s, Obj(next)), next))
  }

  /** An update that sends nothing keeps the stored payload as it was. */
  lemma EmptyUpdateKeepsPayload(e: Record, value: Value)
    requires IsModuleType(Field(e, "type")) && Field(e, "payload").Obj?
    requires Incoming(value) == map[]
    ensures UpdateItem(Some(e), value).Ok?
    ensures UpdateItem(Some(e), value).value.payload == Field(e, "payload").props
  {
    assert Field(e, "payload").props + map[] == Field(e, "payload").props;
  }
}
