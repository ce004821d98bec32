/** The start-up code of the CMS: whether seeding is allowed, the
    registration lock in production, and the users-permissions roles and
    their permission links (the link table holds one row per role and
    permission). Environment variables are parameters: `None` for an unset
    variable, `Some(s)` for a set one. */
module Bootstrap {
  import opened Wrappers
  import opened Text
  import opened Js

  /** `toNumber`: the number a value reads as, 0 when that is not finite. */
  function FiniteOrZero(v: Value): (r: int)
    ensures ToNumber(v).Num? ==> r == ToNumber(v).n
    ensures !ToNumber(v).Num? ==> r == 0
  {
    var n := if v.Num? then v else ToNumber(v);
    if n.Num? then n.n else 0
  }

  /** Ids stored as numbers or as printed numbers read back as themselves;
      a missing id, `NaN` and the infinities read as 0. */
  lemma FiniteOrZeroReadsIds(n: int)
    ensures FiniteOrZero(Num(n)) == n
    ensures FiniteOrZero(Str(IntToString(n))) == n
    ensures FiniteOrZero(Undefined) == 0 && FiniteOrZero(NaN) == 0
    ensures FiniteOrZero(Infinity(false)) == 0 && FiniteOrZero(Infinity(true)) == 0
  {
    NumberOfPrintedInt(n);
  }

  // ---------------------------------------------------------------------------
  // Flags

  /** `String(raw ?? '').trim().toLowerCase()`. */
  function FlagText(raw: Option<string>): string {
    Lower(Trim(raw.GetOr("")))
  }

  /** A flag is on when it reads `1`, `true` or `yes`, whatever the case and
      the surrounding white space. */
  predicate FlagOn(raw: Option<string>) {
    var t := FlagText(raw);
    t == "1" || t == "true" || t == "yes"
  }

  /** `NODE_ENV`, trimmed and lower-cased, is `production`. */
  predicate IsProduction(nodeEnv: Option<string>) {
    FlagText(nodeEnv) == "production"
  }

  /** `STRAPI_SEED ?? SEED`: the first of the two that is set, even when it
      is set to the empty string. */
  function SeedFlag(strapiSeed: Option<string>, seed: Option<string>): (r: Option<string>)
    ensures strapiSeed.Some? ==> r == strapiSeed
    ensures strapiSeed.None? ==> r == seed
  {
    if strapiSeed.Some? then strapiSeed else seed
  }

  /** `allowSeed`: always outside production; in production only when the
      seed flag is on. */
  function AllowSeed(nodeEnv: Option<string>, strapiSeed: Option<string>, seed: Option<string>): (r: bool)
    ensures !IsProduction(nodeEnv) ==> r
    ensures IsProduction(nodeEnv) && strapiSeed.None? && seed.None? ==> !r
    ensures r <==> !IsProduction(nodeEnv) || FlagOn(SeedFlag(strapiSeed, seed))
  {
    !IsProduction(nodeEnv) || FlagOn(SeedFlag(strapiSeed, seed))
  }

  /** White space around a flag does not matter. */
  lemma FlagIgnoresSpaces(s: string)
    ensures FlagOn(Some(s)) <==> FlagOn(Some(Trim(s)))
    ensures IsProduction(Some(s)) <==> IsProduction(Some(Trim(s)))
  {
    TrimIdempotent(s);
    assert FlagText(Some(s)) == FlagText(Some(Trim(s)));
  }

  /** A `STRAPI_SEED` set to the empty string hides `SEED`: in production
      seeding is then refused whatever `SEED` says. */
  lemma EmptyStrapiSeedHidesSeed(nodeEnv: Option<string>, seed: Option<string>)
    requires IsProduction(nodeEnv)
    ensures !AllowSeed(nodeEnv, Some(""), seed)
  {
    assert FlagText(Some("")) == "";
  }

  /** `shouldSeedCore`: categories and authors are seeded when seeding is
      allowed, when `STRAPI_SEED_CORE` is on, or when either collection is
      empty. */
  function ShouldSeedCore(allowSeed: bool, coreFlag: Option<string>, noCategories: bool, noAuthors: bool): (r: bool)
    ensures allowSeed || noCategories || noAuthors ==> r
    ensures !allowSeed && !noCategories && !noAuthors ==> (r <==> FlagOn(coreFlag))
  {
    allowSeed || FlagOn(coreFlag) || noCategories || noAuthors
  }

  /** The registration lock: in production, unless
      `ALLOW_PUBLIC_REGISTRATION` is on, stored advanced settings that allow
      registration are written back with registration off. `None` when
      nothing is written. */
  function RegistrationLock(production: bool, allowFlag: Option<string>, advanced: Value): (r: Option<Value>)
    ensures r.Some? <==> production && !FlagOn(allowFlag) && advanced.Obj? && Get(advanced, "allow_register") == Bool(true)
    ensures r.Some? ==> r.value.Obj? && Get(r.value, "allow_register") == Bool(false)
    ensures r.Some? ==> forall k :: k in advanced.props && k != "allow_register" ==> Get(r.value, k) == advanced.props[k]
  {
    if production && !FlagOn(allowFlag) then LockedSettings(advanced) else None
  }

  /** The stored settings with registration off, when they are an object
      with registration on. */
  function LockedSettings(advanced: Value): (r: Option<Value>)
    ensures r.Some? <==> advanced.Obj? && Get(advanced, "allow_register") == Bool(true)
    ensures r.Some? ==> r.value.Obj? && Get(r.value, "allow_register") == Bool(false)
    ensures r.Some? ==> forall k :: k in advanced.props && k != "allow_register" ==> Get(r.value, k) == advanced.props[k]
  {
    if Truthy(advanced) && IsObjectLike(advanced) && Get(advanced, "allow_register") == Bool(true)
    then Some(Obj(advanced.props["allow_register" := Bool(false)]))
    else None
  }

  /** Locking twice writes once: the written settings are left alone on the
      next start. */
  lemma RegistrationLockOnce(production: bool, allowFlag: Option<string>, advanced: Value)
    requires RegistrationLock(production, allowFlag, advanced).Some?
    ensures RegistrationLock(production, allowFlag, RegistrationLock(production, allowFlag, advanced).value).None?
  {
  }

  // ---------------------------------------------------------------------------
  // Roles and permission links

  datatype Role = Role(id: int, roleType: string, name: string, description: string)

  /** A row of the role-permission link table. */
  datatype Link = Link(role: int, permission: int)

  /** A row of the permission table. */
  datatype Permission = Permission(id: int, action: string)

  /** `findMany({ where: { type } })`: the roles of a type, in store order. */
  function RolesOfType(roles: seq<Role>, t: string): (r: seq<Role>)
    ensures forall i :: 0 <= i < |r| ==> r[i].roleType == t && r[i] in roles
    ensures forall x :: x in roles && x.roleType == t ==> x in r
    ensures |r| <= |roles|
  {
    if roles == [] then []
    else
      var rest := RolesOfType(roles[..|roles| - 1], t);
      assert roles == roles[..|roles| - 1] + [roles[|roles| - 1]];
      if roles[|roles| - 1].roleType == t then rest + [roles[|roles| - 1]] else rest
  }

  /** The roles whose id is not 0, in order (`if (!id) continue`). */
  function WithIds(roles: seq<Role>): (r: seq<Role>)
    ensures forall i :: 0 <= i < |r| ==> r[i].id != 0 && r[i] in roles
    ensures forall x :: x in roles && x.id != 0 ==> x in r
    ensures |r| <= |roles|
  {
    if roles == [] then []
    else
      var rest := WithIds(roles[..|roles| - 1]);
      assert roles == roles[..|roles| - 1] + [roles[|roles| - 1]];
      if roles[|roles| - 1].id != 0 then rest + [roles[|roles| - 1]] else rest
  }

  function RoleIds(roles: seq<Role>): (r: seq<int>)
    ensures |r| == |roles| && forall i :: 0 <= i < |roles| ==> r[i] == roles[i].id
  {
    seq(|roles|, i requires 0 <= i < |roles| => roles[i].id)
  }

  /** `getPermissionIdsForRole`: the positive permission ids linked to a
      role, in row order. */
  function PermissionIds(links: seq<Link>, role: int): (r: seq<int>)
    ensures forall x :: x in r <==> x > 0 && Link(role, x) in links
  {
    if links == [] then []
    else
      var rest := PermissionIds(links[..|links| - 1], role);
      var last := links[|links| - 1];
      assert links == links[..|links| - 1] + [last];
      if last.role == role && last.permission > 0 then rest + [last.permission] else rest
  }

  /** `countPermissionLinks`: the number of rows linking the role. */
  function LinkCount(links: seq<Link>, role: int): (r: nat)
    ensures r <= |links|
    ensures r == 0 <==> forall l :: l in links ==> l.role != role
  {
    if links == [] then 0
    else
      var last := links[|links| - 1];
      assert links == links[..|links| - 1] + [last];
      LinkCount(links[..|links| - 1], role) + if last.role == role then 1 else 0
  }

  /** The requested ids `linkPermissionsToRole` inserts: the positive ones
      not already linked. */
  function Missing(ids: seq<int>, existing: seq<int>): (r: seq<int>)
    ensures forall x :: x in r <==> x in ids && x > 0 && x !in existing
    ensures r == [] <==> forall x :: x in ids && x > 0 ==> x in existing
  {
    if ids == [] then []
    else
      var rest := Missing(ids[..|ids| - 1], existing);
      var last := ids[|ids| - 1];
      assert ids == ids[..|ids| - 1] + [last];
      if last > 0 && last !in existing then rest + [last] else rest
  }

  /** The rows inserted to link `ids` to a role. */
  function LinkRows(role: int, ids: seq<int>): (r: seq<Link>)
    ensures |r| == |ids| && forall i :: 0 <= i < |ids| ==> r[i] == Link(role, ids[i])
  {
    seq(|ids|, i requires 0 <= i < |ids| => Link(role, ids[i]))
  }

  /** Linking the same ids again inserts nothing: the first call leaves
      none of them missing. */
  lemma LinkingTwiceInsertsOnce(links: seq<Link>, roleId: int, ids: seq<int>)
    ensures var after := links + LinkRows(roleId, Missing(ids, PermissionIds(links, roleId)));
      Missing(ids, PermissionIds(after, roleId)) == []
  {
    var missing := Missing(ids, PermissionIds(links, roleId));
    var rows := LinkRows(roleId, missing);
    var after := links + rows;
    forall x | x in ids && x > 0
      ensures x in PermissionIds(after, roleId)
    {
      if x !in PermissionIds(links, roleId) {
        var i :| 0 <= i < |missing| && missing[i] == x;
        assert rows[i] == Link(roleId, x);
      }
    }
  }

  /** The position of the canonical role among the candidates: the first
      with the most links, which is what a stable sort by decreasing link
      count puts in front. */
  function CanonicalIndex(cands: seq<Role>, links: seq<Link>): (k: nat)
    requires |cands| > 0
    ensures k < |cands|
    ensures forall j :: 0 <= j < |cands| ==> LinkCount(links, cands[j].id) <= LinkCount(links, cands[k].id)
    ensures forall j :: 0 <= j < k ==> LinkCount(links, cands[j].id) < LinkCount(links, cands[k].id)
  {
    if |cands| == 1 then 0
    else
      var k := CanonicalIndex(cands[..|cands| - 1], links);
      assert forall j :: 0 <= j < |cands| - 1 ==> cands[..|cands| - 1][j] == cands[j];
      if LinkCount(links, cands[|cands| - 1].id) > LinkCount(links, cands[k].id) then |cands| - 1 else k
  }

  /** The ids of every candidate but the one at `k`, in order. */
  function OtherIds(cands: seq<Role>, k: nat): (r: seq<int>)
    requires k < |cands|
    ensures forall r0 :: r0 in r <==> exists j :: 0 <= j < |cands| && j != k && cands[j].id == r0
  {
    var ids := RoleIds(cands);
    assert ids == ids[..k] + [ids[k]] + ids[k + 1..];
    assert forall j :: 0 <= j < k ==> ids[..k][j] == ids[j];
    assert forall j :: k < j < |ids| ==> ids[k + 1..][j - k - 1] == ids[j];
    ids[..k] + ids[k + 1..]
  }

  /** `findOne({ where: { type } })`: a role of that type, the first in
      store order. */
  function FindByType(roles: seq<Role>, t: string): (r: Option<Role>)
    ensures r.Some? ==> r.value in roles && r.value.roleType == t
    ensures r.None? <==> forall x :: x in roles ==> x.roleType != t
  {
    if roles == [] then None
    else if roles[0].roleType == t then Some(roles[0])
    else
      assert roles == [roles[0]] + roles[1..];
      FindByType(roles[1..], t)
  }

  /** `findOne({ where: { name } })`. */
  function FindByName(roles: seq<Role>, name: string): (r: Option<Role>)
    ensures r.Some? ==> r.value in roles && r.value.name == name
    ensures r.None? <==> forall x :: x in roles ==> x.name != name
  {
    if roles == [] then None
    else if roles[0].name == name then Some(roles[0])
    else
      assert roles == [roles[0]] + roles[1..];
      FindByName(roles[1..], name)
  }

  const AdminUserActionPrefix: string := "api::admin-user.admin-user."

  /** The ids of the admin-user controller's permissions (`action like
      'api::admin-user.admin-user.%'`), positive ones only. */
  function AdminUserPermissionIds(permissions: seq<Permission>): (r: seq<int>)
    ensures forall x :: x in r <==> x > 0 && exists p :: p in permissions && p.id == x && StartsWith(p.action, AdminUserActionPrefix)
  {
    if permissions == [] then []
    else
      var rest := AdminUserPermissionIds(permissions[..|permissions| - 1]);
      var last := permissions[|permissions| - 1];
      assert permissions == permissions[..|permissions| - 1] + [last];
      if last.id > 0 && StartsWith(last.action, AdminUserActionPrefix) then rest + [last.id] else rest
  }

  /** The loop of `syncDuplicateRolesByType` that keeps the roles with a
      non-zero id. */
  method Candidates(typed: seq<Role>) returns (cands: seq<Role>)
    ensures cands == WithIds(typed)
  {
    cands := [];
    for i := 0 to |typed|
      invariant cands == WithIds(typed[..i])
    {
      assert typed[..i + 1] == typed[..i] + [typed[i]];
      assert typed[..i + 1][..i] == typed[..i];
      if typed[i].id == 0 {
        continue;
      }
      cands := cands + [typed[i]];
    }
    assert typed[..|typed|] == typed;
  }

  /** Linking the canonical role's permissions to every other candidate
      leaves every candidate, the canonical one included, linked to all of
      them. */
  lemma EveryCandidateGainsCanonical(before: seq<Link>, after: seq<Link>, cands: seq<Role>, k: nat)
    requires k < |cands|
    requires forall i :: 0 <= i < |cands| ==> cands[i].id != 0
    requires forall l :: l in after <==>
      l in before || (l.role != 0 && l.role in OtherIds(cands, k) && Link(cands[k].id, l.permission) in before && l.permission > 0)
    ensures forall j, x :: 0 <= j < |cands| && x > 0 && Link(cands[k].id, x) in before ==> Link(cands[j].id, x) in after
  {
    forall j, x | 0 <= j < |cands| && x > 0 && Link(cands[k].id, x) in before
      ensures Link(cands[j].id, x) in after
    {
      var l := Link(cands[j].id, x);
      if j != k {
        assert l.role in OtherIds(cands, k);
        assert l in after;
      }
    }
  }

  /** The four CMS roles the start-up code makes sure of: type, name and
      description. */
  const CmsRoles: seq<(string, string, string)> := [
    ("admin", "Admin", "Full access within the Admin CMS."),
    ("editor", "Editor", "Can edit and publish content."),
    ("author", "Author", "Can create and edit own content."),
    ("contributor", "Contributor", "Can submit drafts for review.")]

  /** The roles, the link table and the id the next created role receives. */
  class RoleStore {
    var roles: seq<Role>
    var links: seq<Link>
    var nextId: int

    constructor(roles: seq<Role>, links: seq<Link>, nextId: int)
      ensures this.roles == roles && this.links == links && this.nextId == nextId
    {
      this.roles := roles;
      this.links := links;
      this.nextId := nextId;
    }

    /** `linkPermissionsToRole`: inserts a row for each requested positive id
        the role is not linked to yet; every other row stays. */
    method LinkPermissionsToRole(roleId: int, permissionIds: seq<int>)
      modifies this
      ensures roles == old(roles) && nextId == old(nextId)
      ensures links == old(links) + LinkRows(roleId, Missing(permissionIds, PermissionIds(old(links), roleId)))
      ensures forall l :: l in links <==>
        l in old(links) || (l.role == roleId && l.permission in permissionIds && l.permission > 0)
    {
      if |permissionIds| == 0 {
        assert Missing(permissionIds, PermissionIds(links, roleId)) == [];
        assert links == links + [];
        return;
      }
      var existing := PermissionIds(links, roleId);
      var missing := Missing(permissionIds, existing);
      if |missing| == 0 {
        assert links == links + [];
        return;
      }
      links := links + LinkRows(roleId, missing);
    }

    /** Links `ids` to every non-zero role id of `targets`, one role after
        the other. */
    method LinkToEach(targets: seq<int>, ids: seq<int>)
      modifies this
      ensures roles == old(roles) && nextId == old(nextId)
      ensures old(links) <= links
      ensures forall l :: l in links <==>
        l in old(links) || (l.role != 0 && l.role in targets && l.permission in ids && l.permission > 0)
    {
      ghost var done: set<int> := {};
      for i := 0 to |targets|
        invariant roles == old(roles) && nextId == old(nextId)
        invariant old(links) <= links
        invariant forall r :: r in done <==> r != 0 && r in targets[..i]
        invariant forall l :: l in links <==>
          l in old(links) || (l.role in done && l.permission in ids && l.permission > 0)
      {
        assert targets[..i + 1] == targets[..i] + [targets[i]];
        if targets[i] == 0 {
          continue;
        }
        LinkPermissionsToRole(targets[i], ids);
        done := done + {targets[i]};
      }
      assert targets[..|targets|] == targets;
    }

    /** `syncDuplicateRolesByType`: when several roles share a type, every
        one of them with a non-zero id gains the permission links of the
        canonical one, the first with the most links, and no other row is
        added. */
    method SyncDuplicateRolesByType(t: string)
      modifies this
      ensures roles == old(roles) && nextId == old(nextId)
      ensures old(links) <= links
      ensures |WithIds(RolesOfType(old(roles), t))| <= 1 ==> links == old(links)
      ensures var cands := WithIds(RolesOfType(old(roles), t));
        |cands| > 1 ==>
          var k := CanonicalIndex(cands, old(links));
          (forall l :: l in links <==>
            l in old(links) || (l.role in OtherIds(cands, k) && Link(cands[k].id, l.permission) in old(links) && l.permission > 0))
          && (forall j, x :: 0 <= j < |cands| && x > 0 && Link(cands[k].id, x) in old(links) ==> Link(cands[j].id, x) in links)
    {
      var typed := RolesOfType(roles, t);
      if |typed| <= 1 {
        assert |WithIds(typed)| <= 1;
        return;
      }
      var cands := Candidates(typed);
      if |cands| <= 1 {
        return;
      }
      var k := CanonicalIndex(cands, links);
      var canonicalIds := PermissionIds(links, cands[k].id);
      ghost var before := links;
      LinkToEach(OtherIds(cands, k), canonicalIds);
      EveryCandidateGainsCanonical(before, links, cands, k);
    }

    /** `ensureAdminUserPermissions`: every admin role with a non-zero id
        gains the admin-user controller's permissions, and no other row is
        added. */
    method EnsureAdminUserPermissions(permissions: seq<Permission>)
      modifies this
      ensures roles == old(roles) && nextId == old(nextId)
      ensures old(links) <= links
      ensures forall l :: l in links <==>
        l in old(links)
        || (l.role != 0 && l.role in RoleIds(RolesOfType(old(roles), "admin")) && l.permission in AdminUserPermissionIds(permissions))
    {
      var adminRoles := RolesOfType(roles, "admin");
      if |adminRoles| == 0 {
        assert RoleIds(adminRoles) == [];
        return;
      }
      var ids := AdminUserPermissionIds(permissions);
      LinkToEach(RoleIds(adminRoles), ids);
    }

    /** `ensureRole`: the role of that type, else the role of that name,
        else a new role. */
    method EnsureRole(t: string, name: string, description: string) returns (role: Role)
      modifies this
      ensures links == old(links)
      ensures FindByType(old(roles), t).Some? ==>
        role == FindByType(old(roles), t).value && roles == old(roles) && nextId == old(nextId)
      ensures FindByType(old(roles), t).None? && FindByName(old(roles), name).Some? ==>
        role == FindByName(old(roles), name).value && roles == old(roles) && nextId == old(nextId)
      ensures FindByType(old(roles), t).None? && FindByName(old(roles), name).None? ==>
        role == Role(old(nextId), t, name, description) && roles == old(roles) + [role] && nextId == old(nextId) + 1
      ensures role in roles && (role.roleType == t || role.name == name)
    {
      var existing := FindByType(roles, t);
      if existing.None? {
        existing := FindByName(roles, name);
      }
      if existing.Some? {
        return existing.value;
      }
      role := Role(nextId, t, name, description);
      roles := roles + [role];
      nextId := nextId + 1;
    }

    /** The role block of the start-up code: when seeding is allowed, the
        four CMS roles are ensured, duplicates of each type are given the
        same links, and the admin roles the admin-user permissions. Each
        CMS role is then found by its type or by its name; roles are only
        ever added, at most four of them. */
    method SeedRoles(allowSeed: bool, permissions: seq<Permission>)
      modifies this
      ensures !allowSeed ==> roles == old(roles) && links == old(links) && nextId == old(nextId)
      ensures old(roles) <= roles && |roles| <= |old(roles)| + 4
      ensures old(links) <= links
      ensures allowSeed ==> forall i :: 0 <= i < |CmsRoles| ==>
        FindByType(roles, CmsRoles[i].0).Some? || FindByName(roles, CmsRoles[i].1).Some?
    {
      if !allowSeed {
        return;
      }
      for i := 0 to |CmsRoles|
        invariant old(roles) <= roles && |roles| <= |old(roles)| + i
        invariant old(links) <= links
        invariant forall j :: 0 <= j < i ==> FindByType(roles, CmsRoles[j].0).Some? || FindByName(roles, CmsRoles[j].1).Some?
      {
        var role := EnsureRole(CmsRoles[i].0, CmsRoles[i].1, CmsRoles[i].2);
      }
      ghost var seeded := roles;
      for i := 0 to |CmsRoles|
        invariant roles == seeded
        invariant old(links) <= links
      {
        SyncDuplicateRolesByType(CmsRoles[i].0);
      }
      EnsureAdminUserPermissions(permissions);
    }
  }

  /** Ensuring a role twice creates it at most once and returns the same
      role both times. */
  method EnsureRoleTwice(store: RoleStore, t: string, name: string, description: string) returns (first: Role, second: Role)
    modifies store
    ensures first == second
    ensures |store.roles| <= |old(store.roles)| + 1
  {
    first := store.EnsureRole(t, name, description);
    second := store.EnsureRole(t, name, description);
  }
}
