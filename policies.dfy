/** The three route policies: `cms-role` (any CMS role may pass),
    `admin-only` (an admin, found from the session or from a bearer token)
    and `public-defaults` (defaults and clamps on public list queries). */
module Policies {
  import opened Wrappers
  import opened Text
  import opened Js
  import opened Roles

  // ---------------------------------------------------------------------------
  // cms-role

  /** The `cms-role` policy on the session user. */
  function CmsRoleAllows(user: Value): (r: bool)
    ensures !Truthy(user) ==> !r
    ensures r <==> Truthy(user) && IsCmsRole(RoleLabel(Get(user, "role")))
  {
    if !Truthy(user) then false
    else
      var roleLabel := RoleLabel(Get(user, "role"));
      if roleLabel == [] then false else IsCmsRole(roleLabel)
  }

  /** The policy lets a user through exactly when the admin-user controller
      reads the same role as a CMS role, except that the policy refuses a role
      labelled `administrator`, which the controller reads as `admin`. */
  lemma CmsRoleAgreesWithRoleType(user: Value)
    requires Truthy(user)
    ensures CmsRoleAllows(user) <==>
      NormalizeRoleType(Get(user, "role")).Some? && RoleLabel(Get(user, "role")) != "administrator"
  {
    var roleLabel := RoleLabel(Get(user, "role"));
    assert !IsCmsRole("administrator");
    assert NormalizeRoleType(Get(user, "role")).Some? <==> IsCmsRole(roleLabel) || roleLabel == "administrator";
  }

  // ---------------------------------------------------------------------------
  // admin-only

  /** The `authorization` header from `request.header`, else
      `request.headers`, else `headers`: the first of the three that is
      neither null nor undefined, and nullish only when all three are. */
  function AuthorizationHeader(policyContext: Value): (r: Value)
    ensures var fromHeader := Get(Get(Get(policyContext, "request"), "header"), "authorization");
      !Nullish(fromHeader) ==> r == fromHeader
    ensures var fromHeader := Get(Get(Get(policyContext, "request"), "header"), "authorization");
      var fromHeaders := Get(Get(Get(policyContext, "request"), "headers"), "authorization");
      (Nullish(fromHeader) && !Nullish(fromHeaders)) ==> r == fromHeaders
    ensures var fromHeader := Get(Get(Get(policyContext, "request"), "header"), "authorization");
      var fromHeaders := Get(Get(Get(policyContext, "request"), "headers"), "authorization");
      (Nullish(fromHeader) && Nullish(fromHeaders)) ==> r == Get(Get(policyContext, "headers"), "authorization")
    ensures Nullish(r) <==>
      Nullish(Get(Get(Get(policyContext, "request"), "header"), "authorization"))
      && Nullish(Get(Get(Get(policyContext, "request"), "headers"), "authorization"))
      && Nullish(Get(Get(policyContext, "headers"), "authorization"))
  {
    var request := Get(policyContext, "request");
    Coalesce(Coalesce(Get(Get(request, "header"), "authorization"), Get(Get(request, "headers"), "authorization")),
      Get(Get(policyContext, "headers"), "authorization"))
  }

  /** The token of a `Bearer` header: the header is trimmed, must start with
      `bearer ` in any case, and the rest, trimmed, must not be empty. */
  function BearerToken(auth: Value): (r: Option<string>)
    ensures r.Some? ==> auth.Str? && r.value != [] && NoSpaceAtEdges(r.value)
    ensures r.Some? ==> |Trim(auth.s)| >= 7 && Lower(Trim(auth.s)[..7]) == "bearer "
  {
    var raw := if auth.Str? then Trim(auth.s) else [];
    StartsWithLower(raw, "bearer ");
    if StartsWith(Lower(raw), "bearer ") then
      var token := Trim(raw[7..]);
      if token != [] then Some(token) else None
    else None
  }

  /** A header written `Bearer <token>`, in any case of `Bearer`, yields the token. */
  lemma BearerTokenRoundTrip(scheme: string, token: string)
    requires |scheme| == 7 && Lower(scheme) == "bearer "
    requires token != [] && NoSpaceAtEdges(token)
    ensures BearerToken(Str(scheme + token)) == Some(token)
  {
    var raw := scheme + token;
    assert Lower(scheme)[0] == LowerChar(scheme[0]);
    assert raw[|raw| - 1] == token[|token| - 1];
    assert !IsSpace(raw[0]);
    TrimIdentity(raw);
    TrimIdentity(token);
    assert raw[7..] == token;
    assert raw[..7] == scheme;
    StartsWithLower(raw, "bearer ");
  }

  /** The user a request without a session user is let in as: the user the
      verified token names, `undefined` when there is no bearer token.
      `userOfToken` stands for the token check and the user lookup by the
      token's id; it yields `undefined` when either fails. */
  function TokenUser(auth: Value, userOfToken: string -> Value): (r: Value)
    ensures !auth.Str? ==> r == Undefined
    ensures r != Undefined ==> auth.Str? && |Trim(auth.s)| >= 7 && Lower(Trim(auth.s)[..7]) == "bearer "
    ensures BearerToken(auth).Some? ==> r == userOfToken(BearerToken(auth).value)
  {
    match BearerToken(auth)
    case Some(token) => userOfToken(token)
    case None => Undefined
  }

  /** The role type and name of a user: from its populated role when either
      is a non-empty string, else from the stored user reloaded by id
      (`fullUser`), else neither. */
  function ResolveRole(user: Value, fullUser: Value -> Value): (r: (Option<string>, Option<string>))
    ensures r.0.Some? ==>
      (Str(r.0.value) == Get(Get(user, "role"), "type") || Str(r.0.value) == Get(Get(fullUser(Get(user, "id")), "role"), "type"))
    ensures r.1.Some? ==>
      (Str(r.1.value) == Get(Get(user, "role"), "name") || Str(r.1.value) == Get(Get(fullUser(Get(user, "id")), "role"), "name"))
    ensures Carried(Get(Get(user, "role"), "type")) || Carried(Get(Get(user, "role"), "name")) ==>
      r == (AsString(Get(Get(user, "role"), "type")), AsString(Get(Get(user, "role"), "name")))
    ensures (!Carried(Get(Get(user, "role"), "type")) && !Carried(Get(Get(user, "role"), "name")) && !Truthy(Get(user, "id")))
      ==> r == (None, None)
    ensures (!Carried(Get(Get(user, "role"), "type")) && !Carried(Get(Get(user, "role"), "name")) && Truthy(Get(user, "id")))
      ==> r == (AsString(Get(Get(fullUser(Get(user, "id")), "role"), "type")),
                AsString(Get(Get(fullUser(Get(user, "id")), "role"), "name")))
  {
    var role := Get(user, "role");
    var t := AsString(Get(role, "type"));
    var n := AsString(Get(role, "name"));
    if (t.Some? && t.value != []) || (n.Some? && n.value != []) then (t, n)
    else if !Truthy(Get(user, "id")) then (None, None)
    else
      var full := Get(fullUser(Get(user, "id")), "role");
      (AsString(Get(full, "type")), AsString(Get(full, "name")))
  }

  /** The store is consulted only when the user carries neither a role type
      nor a role name: otherwise the answer is the same whatever it holds. */
  lemma CarriedRoleIsNotReloaded(user: Value, store1: Value -> Value, store2: Value -> Value)
    requires (Get(Get(user, "role"), "type").Str? && Get(Get(user, "role"), "type").s != [])
      || (Get(Get(user, "role"), "name").Str? && Get(Get(user, "role"), "name").s != [])
    ensures ResolveRole(user, store1) == ResolveRole(user, store2)
  {
  }

  /** A session user that carries no role but has an id is judged by the
      stored user's role: a stored role of type `admin` lets it in. */
  lemma ReloadedAdminPasses(user: Value, fullUser: Value -> Value)
    requires !Carried(Get(Get(user, "role"), "type")) && !Carried(Get(Get(user, "role"), "name"))
    requires Truthy(Get(user, "id"))
    requires Get(Get(fullUser(Get(user, "id")), "role"), "type") == Str("admin")
    ensures IsAdmin(ResolveRole(user, fullUser).0, ResolveRole(user, fullUser).1)
  {
    assert ResolveRole(user, fullUser).0 == Some("admin");
  }

  /** A role type or name that counts: a non-empty string. */
  predicate Carried(v: Value) { v.Str? && v.s != [] }

  /** Admin when the role type is exactly `admin`, or the role name is
      `admin` in any case. */
  predicate IsAdmin(roleType: Option<string>, name: Option<string>)
    ensures roleType == Some("admin") ==> IsAdmin(roleType, name)
    ensures name.Some? && Lower(name.value) == "admin" ==> IsAdmin(roleType, name)
    ensures IsAdmin(roleType, name) ==> roleType == Some("admin") || (name.Some? && |name.value| == 5)
  {
    roleType == Some("admin") || (name.Some? && name.value != [] && Lower(name.value) == "admin")
  }

  /** The type is compared case-sensitively: type `Admin` with name `Editor`
      is not an admin, though type `Admin` alone would pass `cms-role`. */
  lemma TypeIsCaseSensitive()
    ensures !IsAdmin(Some("Admin"), Some("Editor"))
    ensures IsAdmin(None, Some("ADMIN"))
  {
    assert Lower("Editor") == "editor";
    assert Lower("ADMIN") == "admin";
  }

  /** A user whose role type is `admin` passes both policies. */
  lemma AdminTypePassesBoth(user: Value, fullUser: Value -> Value)
    requires Truthy(user) && Get(Get(user, "role"), "type") == Str("admin")
    ensures IsAdmin(ResolveRole(user, fullUser).0, ResolveRole(user, fullUser).1)
    ensures CmsRoleAllows(user)
  {
    AdminTypeResolves(user, fullUser);
    AdminTypeLabel(Get(user, "role"));
  }

  /** A role type `admin` is carried, so it is what the role resolves to. */
  lemma AdminTypeResolves(user: Value, fullUser: Value -> Value)
    requires Get(Get(user, "role"), "type") == Str("admin")
    ensures ResolveRole(user, fullUser).0 == Some("admin")
  {
  }

  /** A role type `admin` reads as the label `admin`. */
  lemma AdminTypeLabel(role: Value)
    requires Get(role, "type") == Str("admin")
    ensures RoleLabel(role) == "admin"
  {
    assert IsCmsRole("admin");
    TrimIdentity("admin");
    LowerIdentity("admin");
  }

  /** A role named `Admin` whose type is not a CMS role passes `admin-only`
      and not `cms-role`. */
  lemma NamedAdminPassesOnlyAdminOnly(fullUser: Value -> Value)
    ensures var user := Js.Obj(map["role" := Js.Obj(map["type" := Str("guest"), "name" := Str("Admin")])]);
      IsAdmin(ResolveRole(user, fullUser).0, ResolveRole(user, fullUser).1) && !CmsRoleAllows(user)
  {
    var role := Js.Obj(map["type" := Str("guest"), "name" := Str("Admin")]);
    var user := Js.Obj(map["role" := role]);
    assert Get(user, "role") == role;
    assert Get(role, "type") == Str("guest") && Get(role, "name") == Str("Admin");
    assert ResolveRole(user, fullUser) == (Some("guest"), Some("Admin"));
    assert Lower("Admin") == "admin";
    GuestIsNoRole();
    assert RoleLabel(role) == "guest";
  }

  /** `guest` is its own label and no CMS role. */
  lemma GuestIsNoRole()
    ensures Lower(Trim("guest")) == "guest"
    ensures !IsCmsRole("guest")
  {
    var guest: string := "guest";
    assert forall i :: 0 <= i < |guest| ==> IsLowerAscii(guest[i]);
    LowerWordIsItsOwnLabel(guest);
    assert guest != "admin" && guest != "editor" && guest != "author" && guest != "contributor";
  }

  /** The `admin-only` policy. `stateUser` is the session user; when there
      is none, the bearer token may supply one, which is then stored in the
      session (`newStateUser`). */
  method AdminOnly(stateUser: Value, auth: Value, userOfToken: string -> Value, fullUser: Value -> Value)
    returns (allowed: bool, newStateUser: Value)
    ensures Truthy(stateUser) ==>
      newStateUser == stateUser
      && (allowed <==> IsAdmin(ResolveRole(stateUser, fullUser).0, ResolveRole(stateUser, fullUser).1))
    ensures !Truthy(stateUser) ==>
      var u := TokenUser(auth, userOfToken);
      newStateUser == (if Truthy(u) then u else stateUser)
      && (allowed <==> Truthy(u) && IsAdmin(ResolveRole(u, fullUser).0, ResolveRole(u, fullUser).1))
    ensures !Truthy(stateUser) && BearerToken(auth).None? ==> !allowed && newStateUser == stateUser
  {
    var user := stateUser;
    newStateUser := stateUser;
    if !Truthy(user) {
      var token := BearerToken(auth);
      if token.Some? {
        user := userOfToken(token.value);
        if Truthy(user) {
          newStateUser := user;
        }
      }
    }
    if !Truthy(user) {
      allowed := false;
      return;
    }
    var (roleType, name) := ResolveRole(user, fullUser);
    if roleType == Some("admin") {
      allowed := true;
    } else if name.Some? && name.value != [] && Lower(name.value) == "admin" {
      allowed := true;
    } else {
      allowed := false;
    }
  }

  // ---------------------------------------------------------------------------
  // public-defaults

  const MaxPageSize: int := 100
  const DefaultPageSize: int := 25

  /** `Number(raw)` when it is finite and positive, else 1. */
  function SafePage(raw: Value): (r: int)
    ensures r >= 1
    ensures ToNumber(raw).Num? && ToNumber(raw).n > 0 ==> r == ToNumber(raw).n
    ensures !(ToNumber(raw).Num? && ToNumber(raw).n > 0) ==> r == 1
  {
    match ToNumber(raw)
    case Num(n) => if n > 0 then n else 1
    case _ => 1
  }

  /** `Number(raw)` capped at 100 when it is finite and positive, else 25. */
  function SafePageSize(raw: Value): (r: int)
    ensures 1 <= r <= MaxPageSize
    ensures ToNumber(raw).Num? && ToNumber(raw).n > 0 ==> r == Min(ToNumber(raw).n, MaxPageSize)
    ensures !(ToNumber(raw).Num? && ToNumber(raw).n > 0) ==> r == DefaultPageSize
  {
    match ToNumber(raw)
    case Num(n) => if n > 0 then Min(n, MaxPageSize) else DefaultPageSize
    case _ => DefaultPageSize
  }

  /** The query's `pagination` object, `{}` when there is none. */
  function PaginationOf(q: Record): Record {
    var p := Field(q, "pagination");
    if p.Obj? then p.props else map[]
  }

  /** The query after `public-defaults`: defaults only for falsy values,
      every other query key untouched, and a pagination object holding a
      positive page and a page size in 1..100 beside its other keys. */
  function PublicQuery(q: Record): (r: Record)
    ensures Field(r, "publicationState") ==
      if Truthy(Field(q, "publicationState")) then Field(q, "publicationState") else Str("live")
    ensures Field(r, "sort") ==
      if Truthy(Field(q, "sort")) then Field(q, "sort") else Str("publishedAt:desc")
    ensures forall k :: k != "publicationState" && k != "sort" && k != "pagination" ==>
      Field(r, k) == Field(q, k)
    ensures Field(r, "pagination").Obj?
    ensures var p := Field(r, "pagination").props;
      Field(p, "page").Num? && Field(p, "page").n >= 1 &&
      Field(p, "pageSize").Num? && 1 <= Field(p, "pageSize").n <= MaxPageSize
    ensures forall k :: k != "page" && k != "pageSize" ==>
      Field(Field(r, "pagination").props, k) == Field(PaginationOf(q), k)
  {
    var q1 := if !Truthy(Field(q, "publicationState")) then q["publicationState" := Str("live")] else q;
    var q2 := if !Truthy(Field(q1, "sort")) then q1["sort" := Str("publishedAt:desc")] else q1;
    assert PaginationOf(q2) == PaginationOf(q);
    var pagination := PaginationOf(q2);
    var page := SafePage(Coalesce(Field(pagination, "page"), Field(q2, "page")));
    var pageSize := SafePageSize(Coalesce(Field(pagination, "pageSize"), Field(q2, "pageSize")));
    q2["pagination" := Obj(pagination["page" := Num(page)]["pageSize" := Num(pageSize)])]
  }

  /** A nested pagination value is read before a top-level one. */
  lemma PublicQueryPageSource(q: Record)
    ensures !Nullish(Field(PaginationOf(q), "page")) ==>
      Field(Field(PublicQuery(q), "pagination").props, "page") == Num(SafePage(Field(PaginationOf(q), "page")))
    ensures Nullish(Field(PaginationOf(q), "page")) ==>
      Field(Field(PublicQuery(q), "pagination").props, "page") == Num(SafePage(Field(q, "page")))
  {
    var q1 := if !Truthy(Field(q, "publicationState")) then q["publicationState" := Str("live")] else q;
    var q2 := if !Truthy(Field(q1, "sort")) then q1["sort" := Str("publishedAt:desc")] else q1;
    assert PaginationOf(q2) == PaginationOf(q);
    assert Field(q2, "page") == Field(q, "page");
  }

  /** Pagination values the policy wrote come back as they are. */
  lemma SafeValuesFixed(page: Value, pageSize: Value, other: Value)
    requires page.Num? && page.n >= 1 && pageSize.Num? && 1 <= pageSize.n <= MaxPageSize
    ensures SafePage(Coalesce(page, other)) == page.n
    ensures SafePageSize(Coalesce(pageSize, other)) == pageSize.n
  {
    assert ToNumber(page) == page && ToNumber(pageSize) == pageSize;
  }

  /** Running the policy twice changes nothing the first run did not. */
  lemma PublicQueryIdempotent(q: Record)
    ensures PublicQuery(PublicQuery(q)) == PublicQuery(q)
  {
    var r := PublicQuery(q);
    assert Truthy(Field(r, "publicationState")) && Truthy(Field(r, "sort"));
    var p := Field(r, "pagination").props;
    assert PaginationOf(r) == p;
    SafeValuesFixed(Field(p, "page"), Field(p, "pageSize"), Field(r, "page"));
    SafeValuesFixed(Field(p, "page"), Field(p, "pageSize"), Field(r, "pageSize"));
    assert p["page" := Field(p, "page")]["pageSize" := Field(p, "pageSize")] == p;
    assert r["pagination" := Obj(p)] == r;
  }

  /** The `public-defaults` policy: it always lets the request through, and
      with a query object it writes the defaults into it in place. */
  method ApplyPublicDefaults(query: Option<Record>) returns (allowed: bool, out: Option<Record>)
    ensures allowed
    ensures query.None? ==> out.None?
    ensures query.Some? ==> out == Some(PublicQuery(query.value))
  {
    allowed := true;
    out := query;
    if query.None? {
      return;
    }
    var q := query.value;
    if !Truthy(Field(q, "publicationState")) {
      q := q["publicationState" := Str("live")];
    }
    if !Truthy(Field(q, "sort")) {
      q := q["sort" := Str("publishedAt:desc")];
    }
    var pagination := PaginationOf(q);
    var pageRaw := Coalesce(Field(pagination, "page"), Field(q, "page"));
    var pageSizeRaw := Coalesce(Field(pagination, "pageSize"), Field(q, "pageSize"));
    var page := ToNumber(pageRaw);
    var pageSize := ToNumber(pageSizeRaw);
    var safePage := if page.Num? && page.n > 0 then page.n else 1;
    var safePageSize := if pageSize.Num? && pageSize.n > 0 then Min(pageSize.n, MaxPageSize) else DefaultPageSize;
    q := q["pagination" := Obj(pagination["page" := Num(safePage)]["pageSize" := Num(safePageSize)])];
    out := Some(q);
  }
}
