/** The site-settings controller: a single settings record, created on
    first use, and the fixed set of settings the API returns, with the
    site names and the default author role filled in when missing. */
module SiteSetting {
  import opened Wrappers
  import opened Js

  /** The settings the API returns, in the order the payload lists them. */
  const SettingKeys: seq<string> := ["siteName", "siteNameHindi", "tagline", "taglineHindi", "logo", "favicon",
    "socialLinks", "contactEmail", "contactPhone", "address", "defaultAuthorRole", "googleAnalyticsId",
    "googleAdsenseId", "footerText", "footerTextHindi", "gscPropertyUrl", "gscExportUrl", "backlinkReportUrl",
    "referringDomains", "backlinkNotes", "lastBacklinkSync"]

  const DefaultSiteName: string := "Rampur News"
  const DefaultSiteNameHindi: string := "रामपुर न्यूज़"
  const DefaultAuthorRole: string := "author"

  /** The value a setting takes when it is `null` or missing: the site
      names and the author role have one, every other setting is `undefined`. */
  function Default(k: string): Value {
    if k == "siteName" then Str(DefaultSiteName)
    else if k == "siteNameHindi" then Str(DefaultSiteNameHindi)
    else if k == "defaultAuthorRole" then Str(DefaultAuthorRole)
    else Undefined
  }

  /** `pickSiteSettingPayload`: `value?.k ?? default` for each listed setting. */
  function PickPayload(value: Value): (r: Record)
    ensures r.Keys == set k | k in SettingKeys
  {
    map k | k in SettingKeys :: Coalesce(Get(value, k), Default(k))
  }

  /** The payload holds exactly the listed settings: the id and any other
      stored property are dropped. */
  lemma PayloadDropsOthers(value: Value, k: string)
    requires k !in SettingKeys
    ensures k !in PickPayload(value)
    ensures "id" !in PickPayload(value)
  {
  }

  /** The three settings with a default are listed. */
  lemma DefaultedAreListed()
    ensures "siteName" in SettingKeys && "siteNameHindi" in SettingKeys && "defaultAuthorRole" in SettingKeys
  {
    assert SettingKeys[0] == "siteName" && SettingKeys[1] == "siteNameHindi" && SettingKeys[10] == "defaultAuthorRole";
  }

  /** Each of the three defaults applies only when the setting is `null` or
      missing: an empty string is kept. */
  lemma DefaultsOnlyForNullish(value: Value)
    ensures "siteName" in PickPayload(value) && PickPayload(value)["siteName"] ==
      if Nullish(Get(value, "siteName")) then Str(DefaultSiteName) else Get(value, "siteName")
    ensures "siteNameHindi" in PickPayload(value) && PickPayload(value)["siteNameHindi"] ==
      if Nullish(Get(value, "siteNameHindi")) then Str(DefaultSiteNameHindi) else Get(value, "siteNameHindi")
    ensures "defaultAuthorRole" in PickPayload(value) && PickPayload(value)["defaultAuthorRole"] ==
      if Nullish(Get(value, "defaultAuthorRole")) then Str(DefaultAuthorRole) else Get(value, "defaultAuthorRole")
  {
    DefaultedAreListed();
  }

  /** Every other listed setting passes through, except that a stored
      `null` comes back `undefined` (`null ?? undefined`). */
  lemma OtherSettingsPassThrough(value: Value, k: string)
    requires k in SettingKeys && k != "siteName" && k != "siteNameHindi" && k != "defaultAuthorRole"
    ensures PickPayload(value)[k] == if Get(value, k) == Null then Undefined else Get(value, k)
  {
  }

  /** `normalizeSiteSetting`: `None` for a missing record, else the record
      with its id as a string. */
  function NormalizeSiteSetting(entity: Option<Record>): (r: Option<Record>)
    ensures r.None? <==> entity.None?
    ensures r.Some? ==> "id" in r.value && r.value["id"] == Str(ToStr(Field(entity.value, "id")))
    ensures r.Some? ==> SameExcept(r.value, entity.value, {"id"})
  {
    match entity
    case None => None
    case Some(p) => Some(StringifyId(p))
  }

  /** The settings as stored: the records in the store's order and the id
      the next created record receives. */
  class SettingStore {
    var records: seq<Record>
    var nextId: int

    constructor(records: seq<Record>, nextId: int)
      ensures this.records == records && this.nextId == nextId
    {
      this.records := records;
      this.nextId := nextId;
    }

    /** `getOrCreateSiteSetting`: the first stored record; a new, empty
        record only when there is none. */
    method GetOrCreate() returns (entity: Record)
      modifies this
      ensures old(records) != [] ==> entity == old(records)[0] && records == old(records) && nextId == old(nextId)
      ensures old(records) == [] ==>
        entity == map["id" := Num(old(nextId))] && records == [entity] && nextId == old(nextId) + 1
      ensures records != [] && records[0] == entity
    {
      if records != [] {
        entity := records[0];
        return;
      }
      entity := map["id" := Num(nextId)];
      records := [entity];
      nextId := nextId + 1;
    }

    /** The `get` handler: the settings payload of the (possibly new) record. */
    method Settings() returns (payload: Record)
      modifies this
      ensures old(records) != [] ==> records == old(records) && nextId == old(nextId)
      ensures old(records) == [] ==> records == [map["id" := Num(old(nextId))]] && nextId == old(nextId) + 1
      ensures payload == PickPayload(Obj(StringifyId(records[0])))
    {
      var entity := GetOrCreate();
      var normalized := NormalizeSiteSetting(Some(entity));
      payload := PickPayload(Obj(normalized.value));
    }

    /** The `updateSettings` handler: the request's properties are written
        over the (possibly new) record, which keeps its id, and the payload
        of the result is returned. */
    method UpdateSettings(body: Value) returns (payload: Record)
      modifies this
      ensures |records| == if old(records) == [] then 1 else |old(records)|
      ensures old(records) != [] ==> records[1..] == old(records)[1..]
      ensures records[0] == Updated(if old(records) == [] then map["id" := Num(old(nextId))] else old(records)[0], body)
      ensures payload == PickPayload(Obj(StringifyId(records[0])))
    {
      var entity := GetOrCreate();
      var updated := Updated(entity, body);
      records := [updated] + records[1..];
      var normalized := NormalizeSiteSetting(Some(updated));
      payload := PickPayload(Obj(normalized.value));
    }
  }

  /** The stored record after an update with the request body: the
      properties of the extracted data written over it, the id kept. */
  function Updated(entity: Record, body: Value): (r: Record)
    ensures Field(r, "id") == Field(entity, "id")
    ensures forall k :: k != "id" && Has(ExtractData(body), k) ==> k in r && r[k] == Get(ExtractData(body), k)
    ensures forall k :: k in entity ==> k in r
  {
    var value := ExtractData(body);
    var written := if value.Obj? then entity + value.props else entity;
    if "id" in entity then written["id" := entity["id"]] else written - {"id"}
  }

  /** The first call creates the record and every later call finds it:
      two calls return the same record and create at most one. */
  method GetOrCreateTwice(store: SettingStore) returns (first: Record, second: Record)
    modifies store
    ensures first == second
    ensures |store.records| == if old(store.records) == [] then 1 else |old(store.records)|
  {
    first := store.GetOrCreate();
    second := store.GetOrCreate();
  }
}
