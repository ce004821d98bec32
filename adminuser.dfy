/** The admin-user controller: CMS accounts (users of the
    users-permissions plugin) with an optional linked author profile.
    Store lookups are parameters: `roleIdOfType` finds a role's id by its
    type, `roleById` a role record by its id. */
module AdminUser {
  import opened Wrappers
  import opened Text
  import opened Js
  import opened Roles

  // ---------------------------------------------------------------------------
  // Request parsing

  /** `parseMediaId`: a positive number, given as a number or as numeric text. */
  function ParseMediaId(v: Value): (r: Option<int>)
    ensures r.Some? ==> r.value > 0 && (v.Num? || v.Str?)
    ensures v.Num? && v.n > 0 ==> r == Some(v.n)
    ensures v.Str? && StringToNumber(v.s).Num? && StringToNumber(v.s).n > 0 ==> r == Some(StringToNumber(v.s).n)
    ensures v.Str? && !(StringToNumber(v.s).Num? && StringToNumber(v.s).n > 0) ==> r.None?
  {
    match v
    case Num(n) => if n > 0 then Some(n) else None
    case Str(s) =>
      var n := StringToNumber(s);
      if n.Num? && n.n > 0 then Some(n.n) else None
    case _ => None
  }

  /** A media id is a relation id as the author controller reads it, but
      not conversely: the author controller also reads `true` as the id 1. */
  lemma MediaIdIsRelationId(v: Value)
    ensures ParseMediaId(v).Some? ==> ParseRelationId(v) == ParseMediaId(v)
    ensures ParseRelationId(Bool(true)) == Some(1) && ParseMediaId(Bool(true)).None?
  {
    if ParseMediaId(v).Some? && v.Str? {
      assert ToNumber(v) == StringToNumber(v.s);
    }
    assert ToNumber(Bool(true)) == Num(1);
  }

  /** The author fields a request may carry. */
  datatype AuthorData = AuthorData(name: Option<string>, nameHindi: Option<string>, bio: Option<string>,
    bioHindi: Option<string>, avatarId: Option<int>)
  {
    predicate IsEmpty() { name.None? && nameHindi.None? && bio.None? && bioHindi.None? && avatarId.None? }
  }

  /** Where the author fields are read from: a nested `author` object, else
      the request itself. */
  function AuthorSource(value: Value): (r: Value)
    ensures Truthy(Get(value, "author")) && IsObjectLike(Get(value, "author")) ==> r == Get(value, "author")
    ensures !IsObjectLike(Get(value, "author")) ==> r == value
    ensures r == value || IsObjectLike(r)
  {
    var nested := Get(value, "author");
    if Truthy(nested) && IsObjectLike(nested) then nested else value
  }

  /** The author fields of a source; the `author`-prefixed spelling of a key
      is read before the plain one whenever it is present, even when its text
      is blank. Texts are trimmed and non-blank, an avatar id is positive. */
  function AuthorFields(source: Value): (r: AuthorData)
    ensures !Nullish(Get(source, "authorName")) ==> r.name == ParseString(Get(source, "authorName"))
    ensures Nullish(Get(source, "authorName")) ==> r.name == ParseString(Get(source, "name"))
    ensures !Nullish(Get(source, "authorAvatarId")) ==> r.avatarId == ParseMediaId(Get(source, "authorAvatarId"))
    ensures r.name.Some? ==> r.name.value != [] && NoSpaceAtEdges(r.name.value)
    ensures r.nameHindi.Some? ==> r.nameHindi.value != [] && NoSpaceAtEdges(r.nameHindi.value)
    ensures r.bio.Some? ==> r.bio.value != [] && NoSpaceAtEdges(r.bio.value)
    ensures r.bioHindi.Some? ==> r.bioHindi.value != [] && NoSpaceAtEdges(r.bioHindi.value)
    ensures r.avatarId.Some? ==> r.avatarId.value > 0
  {
    AuthorData(
      ParseString(Coalesce(Get(source, "authorName"), Get(source, "name"))),
      ParseString(Coalesce(Get(source, "authorNameHindi"), Get(source, "nameHindi"))),
      ParseString(Coalesce(Get(source, "authorBio"), Get(source, "bio"))),
      ParseString(Coalesce(Get(source, "authorBioHindi"), Get(source, "bioHindi"))),
      ParseMediaId(Coalesce(Coalesce(Get(source, "authorAvatarId"), Get(source, "avatarId")), Get(source, "avatar"))))
  }

  /** `extractAuthorData`: the author fields, `null` when none is present. */
  function ExtractAuthorData(value: Value): (r: Option<AuthorData>)
    ensures r.None? <==> AuthorFields(AuthorSource(value)).IsEmpty()
    ensures r.Some? ==> r.value == AuthorFields(AuthorSource(value)) && !r.value.IsEmpty()
  {
    var data := AuthorFields(AuthorSource(value));
    if data.IsEmpty() then None else Some(data)
  }

  /** A nested `author` object takes precedence: the top-level fields are
      not read at all, even when the nested object has none. */
  lemma NestedAuthorTakesPrecedence(value: Value)
    requires value.Obj? && "author" in value.props && value.props["author"].Obj?
    ensures ExtractAuthorData(value) == ExtractAuthorData(Obj(value.props["author"].props - {"author"})) ||
      "author" in value.props["author"].props
    ensures value.props["author"].props == map[] ==> ExtractAuthorData(value).None?
  {
    var nested := value.props["author"];
    assert AuthorSource(value) == nested;
    if "author" !in nested.props {
      var stripped := Obj(nested.props - {"author"});
      assert stripped == nested;
      PlainSource(stripped);
    }
    if nested.props == map[] {
      NoAuthorFields(nested);
    }
  }

  /** An object without an `author` object is its own source. */
  lemma PlainSource(v: Value)
    requires v.Obj? && "author" !in v.props
    ensures AuthorSource(v) == v
  {
  }

  /** An empty object carries no author field. */
  lemma NoAuthorFields(v: Value)
    requires v.Obj? && v.props == map[]
    ensures AuthorFields(v).IsEmpty()
  {
    assert forall k :: Get(v, k) == Undefined;
  }

  // ---------------------------------------------------------------------------
  // list

  const DefaultPageSize: int := 25

  /** The page and page size of a listing: page at least 1 (default 1),
      page size between 1 and 100 (default 25). */
  function ListPage(query: Value): (r: (int, int))
    ensures r.0 >= 1 && 1 <= r.1 <= MaxLimit
    ensures ParseNumber(Get(query, "page")).None? ==> r.0 == 1
    ensures ParseNumber(Get(query, "page")).Some? ==> r.0 == Max(ParseNumber(Get(query, "page")).value, 1)
    ensures ParseNumber(Get(query, "pageSize")).None? ==> r.1 == DefaultPageSize
    ensures ParseNumber(Get(query, "pageSize")).Some? ==> r.1 == Min(Max(ParseNumber(Get(query, "pageSize")).value, 1), MaxLimit)
  {
    var page := Max(ParseNumber(Get(query, "page")).GetOr(1), 1);
    var pageSize := Min(Max(ParseNumber(Get(query, "pageSize")).GetOr(DefaultPageSize), 1), MaxLimit);
    (page, pageSize)
  }

  /** The first row of a page. */
  function Offset(page: int, pageSize: int): (r: int)
    requires page >= 1 && pageSize >= 1
    ensures r >= 0
  {
    (page - 1) * pageSize
  }

  /** `total ? Math.ceil(total / pageSize) : 0`: the fewest pages that hold every row. */
  function TotalPages(total: nat, pageSize: int): (r: nat)
    requires pageSize >= 1
    ensures r * pageSize >= total
    ensures r == 0 || (r - 1) * pageSize < total
  {
    if total == 0 then 0 else (total + pageSize - 1) / pageSize
  }

  /** Every row lies on exactly one page between 1 and the page count. */
  lemma RowOnItsPage(total: nat, pageSize: int, row: nat)
    requires pageSize >= 1 && row < total
    ensures var page := row / pageSize + 1;
      1 <= page <= TotalPages(total, pageSize)
      && Offset(page, pageSize) <= row < Offset(page, pageSize) + pageSize
  {
    var q := row / pageSize;
    var n := TotalPages(total, pageSize);
    assert q * pageSize <= row;
    assert row < n * pageSize;
    QuotientBelow(q, n, pageSize);
  }

  lemma QuotientBelow(q: int, n: int, c: int)
    requires c > 0 && q * c < n * c
    ensures q < n
  {
  }

  /** One condition of the user listing. */
  datatype UserFilter = Search(text: string) | RoleId(id: string) | RoleType(roleType: string) | Blocked(blocked: bool)

  /** The search text of a listing: `search`, else `q`. */
  function SearchText(query: Value): Option<string> {
    match ParseString(Get(query, "search"))
    case Some(s) => Some(s)
    case None => ParseString(Get(query, "q"))
  }

  /** The listing conditions for the given parameters, in the order the
      controller appends them. */
  function Filters(search: Option<string>, roleId: Option<string>, roleType: Option<string>, active: Option<bool>)
    : seq<UserFilter>
  {
    (if search.Some? then [Search(search.value)] else [])
    + (if roleId.Some? then [RoleId(roleId.value)] else [])
    + (if roleType.Some? then [RoleType(roleType.value)] else [])
    + (if active.Some? then [Blocked(!active.value)] else [])
  }

  /** One condition per given parameter, `active` read as "not blocked". */
  lemma {:induction false} FiltersMembers(search: Option<string>, roleId: Option<string>, roleType: Option<string>, active: Option<bool>)
    ensures var and := Filters(search, roleId, roleType, active);
      |and| <= 4
      && (forall s :: Search(s) in and <==> search == Some(s))
      && (forall i :: RoleId(i) in and <==> roleId == Some(i))
      && (forall t :: RoleType(t) in and <==> roleType == Some(t))
      && (forall b :: Blocked(b) in and <==> active == Some(!b))
  {
    var a := if search.Some? then [Search(search.value)] else [];
    var b := if roleId.Some? then [RoleId(roleId.value)] else [];
    var c := if roleType.Some? then [RoleType(roleType.value)] else [];
    var d := if active.Some? then [Blocked(!active.value)] else [];
    var and := a + b + c + d;
    assert and == Filters(search, roleId, roleType, active);
    forall f
      ensures f in and <==> f in a || f in b || f in c || f in d
    {
    }
  }

  /** The conditions come in a fixed order: search, role id, role type, active. */
  lemma FiltersOrdered(search: Option<string>, roleId: Option<string>, roleType: Option<string>, active: Option<bool>)
    ensures var and := Filters(search, roleId, roleType, active);
      forall i, j :: 0 <= i < j < |and| ==> FilterRank(and[i]) < FilterRank(and[j])
  {
    var a := if search.Some? then [Search(search.value)] else [];
    var b := if roleId.Some? then [RoleId(roleId.value)] else [];
    var c := if roleType.Some? then [RoleType(roleType.value)] else [];
    var d := if active.Some? then [Blocked(!active.value)] else [];
    var and := a + b + c + d;
    assert and == Filters(search, roleId, roleType, active);
    forall i, j | 0 <= i < j < |and|
      ensures FilterRank(and[i]) < FilterRank(and[j])
    {
      assert i < |a| ==> FilterRank(and[i]) == 0;
      assert |a| <= i < |a| + |b| ==> FilterRank(and[i]) == 1;
      assert |a| + |b| <= i < |a| + |b| + |c| ==> FilterRank(and[i]) == 2;
      assert |a| <= j < |a| + |b| ==> FilterRank(and[j]) == 1;
      assert |a| + |b| <= j < |a| + |b| + |c| ==> FilterRank(and[j]) == 2;
      assert |a| + |b| + |c| <= j ==> FilterRank(and[j]) == 3;
    }
  }

  /** The conditions of a listing, built by appending one per given
      parameter: the search text (`search`, else `q`), `roleId`, `roleType`
      and `active`, each as parsed from the query. */
  method ListFilters(search: Option<string>, roleId: Option<string>, roleType: Option<string>, active: Option<bool>)
    returns (and: seq<UserFilter>)
    ensures and == Filters(search, roleId, roleType, active)
  {
    and := [];
    if search.Some? {
      and := and + [Search(search.value)];
    }
    if roleId.Some? {
      and := and + [RoleId(roleId.value)];
    }
    if roleType.Some? {
      and := and + [RoleType(roleType.value)];
    }
    if active.Some? {
      and := and + [Blocked(!active.value)];
    }
  }

  /** The filters of a listing query. */
  method QueryFilters(query: Value) returns (and: seq<UserFilter>)
    ensures forall s :: Search(s) in and <==> SearchText(query) == Some(s)
    ensures forall b :: Blocked(b) in and <==> ParseBoolean(Get(query, "active")) == Some(!b)
  {
    FiltersMembers(SearchText(query), ParseString(Get(query, "roleId")), ParseString(Get(query, "roleType")),
      ParseBoolean(Get(query, "active")));
    and := ListFilters(SearchText(query), ParseString(Get(query, "roleId")), ParseString(Get(query, "roleType")),
      ParseBoolean(Get(query, "active")));
  }

  /** The position of each kind of condition in the listing. */
  function FilterRank(f: UserFilter): nat {
    match f
    case Search(_) => 0
    case RoleId(_) => 1
    case RoleType(_) => 2
    case Blocked(_) => 3
  }

  // ---------------------------------------------------------------------------
  // create

  /** The part of an e-mail address before its first `@`. */
  function LocalPart(email: string): (r: string)
    ensures '@' !in r
    ensures r <= email
    ensures '@' in email ==> |r| < |email| && email[|r|] == '@'
    ensures '@' !in email ==> r == email
  {
    var parts := Split(email, '@');
    SplitHeadIsPrefix(email, '@');
    assert forall i :: 0 <= i < |parts[0]| ==> parts[0][i] != '@';
    assert parts[0] != email ==> email[|parts[0]|] == '@';
    parts[0]
  }

  lemma {:induction false} SplitHeadIsPrefix(s: string, sep: char)
    ensures Split(s, sep)[0] <= s
    ensures Split(s, sep)[0] == s || (|Split(s, sep)[0]| < |s| && s[|Split(s, sep)[0]|] == sep)
  {
    if s != [] && s[0] != sep {
      SplitHeadIsPrefix(s[1..], sep);
    }
  }

  /** The user name of a new account: the requested one, else the local part
      of the e-mail address, else `user-<stamp>`. */
  function Username(value: Value, stamp: nat): (r: string)
    ensures ParseString(Get(value, "username")).Some? ==> r == ParseString(Get(value, "username")).value
    ensures ParseString(Get(value, "username")).None? && ParseString(Get(value, "email")).Some? ==>
      r == LocalPart(ParseString(Get(value, "email")).value)
    ensures ParseString(Get(value, "username")).None? && ParseString(Get(value, "email")).None? ==>
      r == "user-" + NatToString(stamp)
  {
    match ParseString(Get(value, "username"))
    case Some(u) => u
    case None =>
      match ParseString(Get(value, "email"))
      case Some(e) => LocalPart(e)
      case None => "user-" + NatToString(stamp)
  }

  /** The role of a new account: the requested id, else the role of the
      requested type, else the `author` role. */
  function ResolveRoleId(roleId: Option<string>, roleType: Option<string>, roleIdOfType: string -> Option<string>)
    : (r: Option<string>)
    ensures roleId.Some? ==> r == roleId
    ensures roleId.None? && roleType.Some? && roleIdOfType(roleType.value).Some? ==> r == roleIdOfType(roleType.value)
    ensures roleId.None? && (roleType.None? || roleIdOfType(roleType.value).None?) ==> r == roleIdOfType("author")
  {
    if roleId.Some? then roleId
    else if roleType.Some? && roleIdOfType(roleType.value).Some? then roleIdOfType(roleType.value)
    else roleIdOfType("author")
  }

  /** The requested role id: `roleId`, else `role`; a blank `roleId` counts
      as absent. */
  function RequestedRoleId(value: Value): (r: Option<string>)
    ensures ParseString(Get(value, "roleId")).Some? ==> r == ParseString(Get(value, "roleId"))
    ensures ParseString(Get(value, "roleId")).None? ==> r == ParseString(Get(value, "role"))
    ensures r.Some? ==> r.value != [] && NoSpaceAtEdges(r.value)
  {
    match ParseString(Get(value, "roleId"))
    case Some(id) => Some(id)
    case None => ParseString(Get(value, "role"))
  }

  /** The author role written with a new account, as the code computes it:
      the role of the account, else `normalizeRoleType` of the requested
      type string (which has no `type` or `name` and so never yields one),
      else `author`. */
  function AuthorRoleAsWritten(resolvedRole: Value, roleType: Option<string>): (r: string)
    ensures IsCmsRole(r)
  {
    match NormalizeRoleType(resolvedRole)
    case Some(t) => t
    case None =>
      var requested := if roleType.Some? then Str(roleType.value) else Undefined;
      match NormalizeRoleType(requested)
      case Some(t) => t
      case None => "author"
  }

  /** The author role as evidently intended: the requested type is read as a
      role label when the account's role gives none. */
  function AuthorRole(resolvedRole: Value, roleType: Option<string>): (r: string)
    ensures IsCmsRole(r)
    ensures NormalizeRoleType(resolvedRole).Some? ==> r == NormalizeRoleType(resolvedRole).value
    ensures (NormalizeRoleType(resolvedRole).None? && roleType.Some?
      && NormalizeRoleType(Obj(map["type" := Str(roleType.value)])).Some?) ==>
      r == NormalizeRoleType(Obj(map["type" := Str(roleType.value)])).value
  {
    match NormalizeRoleType(resolvedRole)
    case Some(t) => t
    case None =>
      var requested := if roleType.Some? then Obj(map["type" := Str(roleType.value)]) else Undefined;
      match NormalizeRoleType(requested)
      case Some(t) => t
      case None => "author"
  }

  /** As written, the requested type never matters: an account whose role
      record gives no CMS role gets an `author` profile whatever type was
      requested, `editor` included. */
  lemma RequestedTypeIsIgnored(resolvedRole: Value, roleType: Option<string>)
    requires NormalizeRoleType(resolvedRole).None?
    ensures AuthorRoleAsWritten(resolvedRole, roleType) == "author"
  {
    var requested := if roleType.Some? then Str(roleType.value) else Undefined;
    NoRoleOfNonObject(requested);
  }

  /** A value that is not an object has no `type` or `name`, so no role. */
  lemma NoRoleOfNonObject(v: Value)
    requires !v.Obj?
    ensures NormalizeRoleType(v) == None
  {
    assert RoleLabel(v) == [] by {
      assert Get(v, "type") == Undefined && Get(v, "name") == Undefined;
    }
  }

  /** Read as intended, the requested type decides the profile's role
      whenever the account's role record gives none; as written the profile
      is then always an `author`. The two readings differ exactly when the
      requested type names a CMS role other than `author`. */
  lemma RequestedTypeIsUsed(resolvedRole: Value, roleType: string)
    requires NormalizeRoleType(resolvedRole).None?
    ensures AuthorRole(resolvedRole, Some(roleType)) ==
      NormalizeRoleType(Obj(map["type" := Str(roleType)])).GetOr("author")
    ensures AuthorRole(resolvedRole, Some(roleType)) != AuthorRoleAsWritten(resolvedRole, Some(roleType)) <==>
      NormalizeRoleType(Obj(map["type" := Str(roleType)])).Some?
      && NormalizeRoleType(Obj(map["type" := Str(roleType)])).value != "author"
  {
    RequestedTypeIsIgnored(resolvedRole, Some(roleType));
  }

  /** When the account's role record gives a CMS role, both readings agree. */
  lemma ResolvedRoleDecides(resolvedRole: Value, roleType: Option<string>)
    requires NormalizeRoleType(resolvedRole).Some?
    ensures AuthorRole(resolvedRole, roleType) == AuthorRoleAsWritten(resolvedRole, roleType)
      == NormalizeRoleType(resolvedRole).value
  {
  }

  /** The account `create` adds, and the author profile it links. */
  datatype NewUser = NewUser(email: string, username: string, password: string, confirmed: bool, blocked: bool,
    roleId: string)
  datatype NewAuthor = NewAuthor(name: string, nameHindi: Option<string>, email: string, bio: Option<string>,
    bioHindi: Option<string>, role: string, avatar: Option<int>)
  datatype CreatePlan = CreatePlan(user: NewUser, author: Option<NewAuthor>)

  /** The request checks of `create`, in order: an e-mail address, a
      password, then a role. On success, the account to add and, when author
      fields were sent, the author profile to link to it. */
  function CreateUser(value: Value, stamp: nat, roleIdOfType: string -> Option<string>, roleById: string -> Value)
    : (r: Result<CreatePlan, string>)
    ensures r == Err("email is required") <==> ParseString(Get(value, "email")).None?
    ensures r == Err("password is required") <==>
      ParseString(Get(value, "email")).Some? && ParseString(Get(value, "password")).None?
    ensures r == Err("role is required") <==>
      ParseString(Get(value, "email")).Some? && ParseString(Get(value, "password")).Some?
      && ResolveRoleId(RequestedRoleId(value), ParseString(Get(value, "roleType")), roleIdOfType).None?
    ensures r.Ok? ==>
      r.value.user.email == ParseString(Get(value, "email")).value
      && r.value.user.username == Username(value, stamp)
      && Some(r.value.user.roleId) == ResolveRoleId(RequestedRoleId(value), ParseString(Get(value, "roleType")), roleIdOfType)
      && (r.value.author.Some? <==> ExtractAuthorData(value).Some?)
    ensures r.Ok? && r.value.author.Some? ==>
      r.value.author.value.email == r.value.user.email
      && r.value.author.value.name == ExtractAuthorData(value).value.name.GetOr(r.value.user.username)
      && r.value.author.value.role == AuthorRole(roleById(r.value.user.roleId), ParseString(Get(value, "roleType")))
      && r.value.author.value.nameHindi == ExtractAuthorData(value).value.nameHindi
      && r.value.author.value.bio == ExtractAuthorData(value).value.bio
      && r.value.author.value.bioHindi == ExtractAuthorData(value).value.bioHindi
      && r.value.author.value.avatar == ExtractAuthorData(value).value.avatarId
    ensures r.Ok? ==> r.value.user.password == ParseString(Get(value, "password")).value
    ensures r.Ok? && Get(value, "confirmed").Bool? ==> r.value.user.confirmed == Get(value, "confirmed").b
    ensures r.Ok? && !Get(value, "confirmed").Bool? ==> r.value.user.confirmed
    ensures r.Ok? && Get(value, "blocked").Bool? ==> r.value.user.blocked == Get(value, "blocked").b
    ensures r.Ok? && !Get(value, "blocked").Bool? ==> !r.value.user.blocked
  {
    var email := ParseString(Get(value, "email"));
    var password := ParseString(Get(value, "password"));
    var username := Username(value, stamp);
    var roleType := ParseString(Get(value, "roleType"));
    var confirmed := if Get(value, "confirmed").Bool? then Get(value, "confirmed").b else true;
    var blocked := if Get(value, "blocked").Bool? then Get(value, "blocked").b else false;
    var authorData := ExtractAuthorData(value);
    if email.None? then Err("email is required")
    else if password.None? then Err("password is required")
    else
      match ResolveRoleId(RequestedRoleId(value), roleType, roleIdOfType)
      case None => Err("role is required")
      case Some(roleId) =>
        var user := NewUser(email.value, username, password.value, confirmed, blocked, roleId);
        var author := match authorData
          case None => None
          case Some(d) =>
            Some(NewAuthor(d.name.GetOr(username), d.nameHindi, email.value, d.bio, d.bioHindi,
              AuthorRole(roleById(roleId), roleType), d.avatarId));
        Ok(CreatePlan(user, author))
  }

  // ---------------------------------------------------------------------------
  // Compensation and deletion

  /** A removal the controller performs. */
  datatype Removal = DeleteAuthor(authorId: int) | RemoveUser(userId: Value) | DeleteFile(fileId: int)

  function RemovalRank(s: Removal): nat {
    match s
    case DeleteAuthor(_) => 0
    case RemoveUser(_) => 1
    case DeleteFile(_) => 2
  }

  /** The steps that undo a failed `create`: the author it linked, then the
      account it added, then the uploaded avatar, each only when it exists. */
  function CreateRollback(createdAuthorId: Option<int>, createdUserId: Value, avatarId: Option<int>): (r: seq<Removal>)
    ensures forall i, j :: 0 <= i < j < |r| ==> RemovalRank(r[i]) < RemovalRank(r[j])
    ensures forall a :: DeleteAuthor(a) in r <==> createdAuthorId == Some(a) && a != 0
    ensures forall u :: RemoveUser(u) in r <==> u == createdUserId && Truthy(createdUserId)
    ensures forall f :: DeleteFile(f) in r <==> avatarId == Some(f) && f != 0
  {
    (if createdAuthorId.Some? && createdAuthorId.value != 0 then [DeleteAuthor(createdAuthorId.value)] else [])
    + (if Truthy(createdUserId) then [RemoveUser(createdUserId)] else [])
    + (if avatarId.Some? && avatarId.value != 0 then [DeleteFile(avatarId.value)] else [])
  }

  /** `delete`: a missing account is not found; otherwise its author profile
      goes first, then the account. */
  function DeleteUser(id: Value, existing: bool, linkedAuthorId: Option<int>): (r: Result<seq<Removal>, string>)
    ensures !existing <==> r == Err("User not found")
    ensures r.Ok? ==> |r.value| >= 1 && r.value[|r.value| - 1] == RemoveUser(id)
    ensures r.Ok? && linkedAuthorId.Some? ==> r.value == [DeleteAuthor(linkedAuthorId.value), RemoveUser(id)]
    ensures r.Ok? && linkedAuthorId.None? ==> r.value == [RemoveUser(id)]
    ensures r.Ok? ==> forall i, j :: 0 <= i < j < |r.value| ==> RemovalRank(r.value[i]) < RemovalRank(r.value[j])
  {
    if !existing then Err("User not found")
    else Ok((if linkedAuthorId.Some? then [DeleteAuthor(linkedAuthorId.value)] else []) + [RemoveUser(id)])
  }

  // ---------------------------------------------------------------------------
  // update

  /** The role id `update` writes: the requested id, else the role of the
      requested type; unlike `create`, no `author` fallback. */
  function PatchRoleId(value: Value, roleIdOfType: string -> Option<string>): (r: Option<string>)
    ensures RequestedRoleId(value).Some? ==> r == RequestedRoleId(value)
    ensures RequestedRoleId(value).None? && ParseString(Get(value, "roleType")).Some? ==>
      r == roleIdOfType(ParseString(Get(value, "roleType")).value)
    ensures RequestedRoleId(value).None? && ParseString(Get(value, "roleType")).None? ==> r.None?
  {
    var roleType := ParseString(Get(value, "roleType"));
    if RequestedRoleId(value).Some? then RequestedRoleId(value)
    else if roleType.Some? then roleIdOfType(roleType.value)
    else None
  }

  /** The account fields of the `update` patch: each only when the request
      gives a usable value for it. */
  /** The patch keys are pairwise distinct (each starts with its own letter). */
  lemma PatchKeysDiffer()
    ensures "email" != "username" && "email" != "password" && "email" != "confirmed" && "email" != "blocked" && "email" != "role"
    ensures "username" != "password" && "username" != "confirmed" && "username" != "blocked" && "username" != "role"
    ensures "password" != "confirmed" && "password" != "blocked" && "password" != "role"
    ensures "confirmed" != "blocked" && "confirmed" != "role" && "blocked" != "role"
  {
    assert "email"[0] == 'e' && "username"[0] == 'u' && "password"[0] == 'p';
    assert "confirmed"[0] == 'c' && "blocked"[0] == 'b' && "role"[0] == 'r';
  }

  method AccountPatch(value: Value) returns (patch: Record)
    ensures patch.Keys <= {"email", "username", "password", "confirmed", "blocked"}
    ensures "email" in patch <==> ParseString(Get(value, "email")).Some?
    ensures "email" in patch ==> patch["email"] == Str(ParseString(Get(value, "email")).value)
    ensures "username" in patch <==> ParseString(Get(value, "username")).Some?
    ensures "username" in patch ==> patch["username"] == Str(ParseString(Get(value, "username")).value)
    ensures "password" in patch <==> ParseString(Get(value, "password")).Some?
    ensures "password" in patch ==> patch["password"] == Str(ParseString(Get(value, "password")).value)
    ensures "confirmed" in patch <==> Get(value, "confirmed").Bool?
    ensures "confirmed" in patch ==> patch["confirmed"] == Get(value, "confirmed")
    ensures "blocked" in patch <==> Get(value, "blocked").Bool?
    ensures "blocked" in patch ==> patch["blocked"] == Get(value, "blocked")
  {
    PatchKeysDiffer();
    patch := map[];
    var email := ParseString(Get(value, "email"));
    var username := ParseString(Get(value, "username"));
    var password := ParseString(Get(value, "password"));
    if email.Some? {
      patch := patch["email" := Str(email.value)];
    }
    if username.Some? {
      patch := patch["username" := Str(username.value)];
    }
    if password.Some? {
      patch := patch["password" := Str(password.value)];
    }
    if Get(value, "confirmed").Bool? {
      patch := patch["confirmed" := Get(value, "confirmed")];
    }
    if Get(value, "blocked").Bool? {
      patch := patch["blocked" := Get(value, "blocked")];
    }
  }

  /** The account patch of `update`: the account fields, then the role id
      when one is requested and found. */
  method UserPatch(value: Value, roleIdOfType: string -> Option<string>) returns (patch: Record)
    ensures patch.Keys <= {"email", "username", "password", "confirmed", "blocked", "role"}
    ensures "email" in patch <==> ParseString(Get(value, "email")).Some?
    ensures "email" in patch ==> patch["email"] == Str(ParseString(Get(value, "email")).value)
    ensures "username" in patch <==> ParseString(Get(value, "username")).Some?
    ensures "username" in patch ==> patch["username"] == Str(ParseString(Get(value, "username")).value)
    ensures "password" in patch <==> ParseString(Get(value, "password")).Some?
    ensures "password" in patch ==> patch["password"] == Str(ParseString(Get(value, "password")).value)
    ensures "confirmed" in patch <==> Get(value, "confirmed").Bool?
    ensures "confirmed" in patch ==> patch["confirmed"] == Get(value, "confirmed")
    ensures "blocked" in patch <==> Get(value, "blocked").Bool?
    ensures "blocked" in patch ==> patch["blocked"] == Get(value, "blocked")
    ensures "role" in patch <==> PatchRoleId(value, roleIdOfType).Some?
    ensures "role" in patch ==> patch["role"] == Str(PatchRoleId(value, roleIdOfType).value)
  {
    PatchKeysDiffer();
    patch := AccountPatch(value);
    var resolved := RequestedRoleId(value);
    var roleType := ParseString(Get(value, "roleType"));
    if resolved.None? && roleType.Some? {
      resolved := roleIdOfType(roleType.value);
    }
    if resolved.Some? {
      patch := patch["role" := Str(resolved.value)];
    }
  }

  /** The patch that undoes a failed `update`: the stored e-mail, user name,
      flags and role id, each when it was stored with the right type. */
  function UpdateRollback(before: Value): (r: Record)
    ensures Get(before, "email").Str? ==> "email" in r && r["email"] == Get(before, "email")
    ensures Get(before, "username").Str? ==> "username" in r && r["username"] == Get(before, "username")
    ensures Get(before, "confirmed").Bool? ==> "confirmed" in r && r["confirmed"] == Get(before, "confirmed")
    ensures Get(before, "blocked").Bool? ==> "blocked" in r && r["blocked"] == Get(before, "blocked")
    ensures "email" in r <==> Get(before, "email").Str?
    ensures "username" in r <==> Get(before, "username").Str?
    ensures "confirmed" in r <==> Get(before, "confirmed").Bool?
    ensures "blocked" in r <==> Get(before, "blocked").Bool?
    ensures "role" in r <==> Truthy(Get(Get(before, "role"), "id"))
    ensures "role" in r ==> r["role"] == Str(ToStr(Get(Get(before, "role"), "id")))
    ensures r.Keys <= {"email", "username", "confirmed", "blocked", "role"}
  {
    PatchKeysDiffer();
    var r0: Record := map[];
    var r1 := if Get(before, "email").Str? then r0["email" := Get(before, "email")] else r0;
    var r2 := if Get(before, "username").Str? then r1["username" := Get(before, "username")] else r1;
    var r3 := if Get(before, "confirmed").Bool? then r2["confirmed" := Get(before, "confirmed")] else r2;
    var r4 := if Get(before, "blocked").Bool? then r3["blocked" := Get(before, "blocked")] else r3;
    var roleId := Get(Get(before, "role"), "id");
    if Truthy(roleId) then r4["role" := Str(ToStr(roleId))] else r4
  }

  /** Applying the rollback over a partly applied patch restores every field
      the rollback records, whatever the patch wrote. */
  lemma RollbackRestores(before: Value, stored: Record, patch: Record)
    ensures var restored := (stored + patch) + UpdateRollback(before);
      (Get(before, "email").Str? ==> restored["email"] == Get(before, "email"))
      && (Get(before, "username").Str? ==> restored["username"] == Get(before, "username"))
      && (Get(before, "confirmed").Bool? ==> restored["confirmed"] == Get(before, "confirmed"))
      && (Get(before, "blocked").Bool? ==> restored["blocked"] == Get(before, "blocked"))
      && (Truthy(Get(Get(before, "role"), "id")) ==> restored["role"] == Str(ToStr(Get(Get(before, "role"), "id"))))
  {
    PatchKeysDiffer();
  }
}
