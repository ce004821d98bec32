/** The author controller: author profiles as the site shows them, and the
    rules for creating and patching them. `fileIdByUrl` stands for the
    lookup of an uploaded file by the path of its URL. */
module Author {
  import opened Wrappers
  import opened Text
  import opened Js
  import opened Roles

  /** An author as the API returns it. */
  datatype AuthorView = AuthorView(id: string, name: string, nameHindi: string, email: string, avatar: Option<string>,
    bio: Option<string>, bioHindi: Option<string>, role: string, userId: Option<string>, createdAt: Option<string>,
    updatedAt: Option<string>)

  /** `v ? String(v) : undefined`. */
  function TextIfTruthy(v: Value): (r: Option<string>)
    ensures r.Some? <==> Truthy(v)
  {
    if Truthy(v) then Some(ToStr(v)) else None
  }

  /** `normalizeAuthor`. */
  function NormalizeAuthor(entity: Value, origin: string, resolve: (string, string) -> Option<string>)
    : (r: Option<AuthorView>)
    ensures r.None? <==> !Truthy(entity)
    ensures r.Some? ==> IsCmsRole(r.value.role)
    ensures r.Some? ==> r.value.role == ParseAuthorRole(Get(entity, "role")).GetOr("author")
    ensures r.Some? && !Truthy(Get(entity, "name")) ==> r.value.name == []
    ensures r.Some? && !Truthy(Get(entity, "email")) ==> r.value.email == []
    ensures r.Some? ==> (r.value.avatar.Some? <==> Get(Get(entity, "avatar"), "url").Str? && Get(Get(entity, "avatar"), "url").s != [])
  {
    if !Truthy(entity) then None
    else
      var url := Get(Get(entity, "avatar"), "url");
      Some(AuthorView(
        ToStr(Get(entity, "id")),
        TextOf(Get(entity, "name")),
        TextOf(Get(entity, "nameHindi")),
        TextOf(Get(entity, "email")),
        if url.Str? && url.s != [] then Some(ToAbsoluteUrl(origin, url.s, resolve)) else None,
        TextIfTruthy(Get(entity, "bio")),
        TextIfTruthy(Get(entity, "bioHindi")),
        ParseAuthorRole(Get(entity, "role")).GetOr("author"),
        TextIfTruthy(Get(Get(entity, "user"), "id")),
        AsString(Get(entity, "createdAt")),
        AsString(Get(entity, "updatedAt"))))
  }

  // ---------------------------------------------------------------------------
  // Avatars

  /** What a request says about the avatar. */
  datatype AvatarChoice = ClearAvatar | AvatarFile(id: int) | KeepAvatar

  /** `resolveAvatarId`: `null` or `''` clears the avatar, a positive id is
      used directly, other text is looked up as a file URL. */
  function ResolveAvatarId(v: Value, fileIdByUrl: string -> Option<int>): (r: AvatarChoice)
    ensures r == ClearAvatar <==> v == Null || v == Str("")
    ensures v != Null && v != Str("") && ParseRelationId(v).Some? ==> r == AvatarFile(ParseRelationId(v).value)
    ensures r.AvatarFile? && !(ParseRelationId(v).Some? && v != Str("")) ==>
      v.Str? && ParseString(v).Some? && fileIdByUrl(ParseString(v).value) == Some(r.id)
    ensures !v.Str? && v != Null && ParseRelationId(v).None? ==> r == KeepAvatar
  {
    if v == Null || v == Str("") then ClearAvatar
    else match ParseRelationId(v)
      case Some(id) => AvatarFile(id)
      case None =>
        if v.Str? then
          match ParseString(v)
          case None => KeepAvatar
          case Some(raw) =>
            match fileIdByUrl(raw)
            case Some(id) => AvatarFile(id)
            case None => KeepAvatar
        else KeepAvatar
  }

  /** The avatar value a request carries, as the code reads it:
      `input.avatar ?? input.avatarId`. A `null` avatar is passed over just
      like an absent one, so it never reaches the resolver. */
  function AvatarRequestAsWritten(input: Value): (r: Value)
    ensures !Nullish(Get(input, "avatar")) ==> r == Get(input, "avatar")
    ensures Nullish(Get(input, "avatar")) ==> r == Get(input, "avatarId")
    ensures Get(input, "avatar") == Null && Get(input, "avatarId") == Undefined ==> r == Undefined
  {
    Coalesce(Get(input, "avatar"), Get(input, "avatarId"))
  }

  /** The avatar value as evidently intended: `avatar` whenever the key is
      given, even as `null`, else `avatarId`. */
  function AvatarRequest(input: Value): (r: Value)
    ensures Get(input, "avatar") != Undefined ==> r == Get(input, "avatar")
    ensures Get(input, "avatar") == Undefined ==> r == Get(input, "avatarId")
  {
    if Get(input, "avatar") != Undefined then Get(input, "avatar") else Get(input, "avatarId")
  }

  /** As written, `{ avatar: null }` does not clear the avatar: `??` skips
      the `null` and the absent `avatarId` leaves the avatar as it is. The
      intended reading clears it. */
  lemma NullAvatarIsIgnored(fileIdByUrl: string -> Option<int>)
    ensures var input := Obj(map["avatar" := Null]);
      ResolveAvatarId(AvatarRequestAsWritten(input), fileIdByUrl) == KeepAvatar
      && ResolveAvatarId(AvatarRequest(input), fileIdByUrl) == ClearAvatar
  {
    var input := Obj(map["avatar" := Null]);
    assert Get(input, "avatarId") == Undefined;
    assert AvatarRequestAsWritten(input) == Undefined;
  }

  /** The two readings differ only when `avatar` is `null`. */
  lemma AvatarReadingsAgree(input: Value)
    requires Get(input, "avatar") != Null
    ensures AvatarRequestAsWritten(input) == AvatarRequest(input)
  {
  }

  // ---------------------------------------------------------------------------
  // create

  /** The record `create` writes. */
  datatype NewAuthor = NewAuthor(name: string, nameHindi: Option<string>, email: string, bio: Option<string>,
    bioHindi: Option<string>, role: string, user: Option<int>, avatar: AvatarChoice)

  /** A role is refused when it is given (not `undefined`, `null` or `''`)
      and is not one of the four roles. */
  predicate RoleRefused(role: Value) {
    role != Undefined && role != Null && role != Str("") && ParseAuthorRole(role).None?
  }

  /** The role `create` writes: a valid role as given, `author` when none is
      given, refused otherwise. */
  function CreateRole(role: Value): (r: Result<string, string>)
    ensures r.Err? <==> RoleRefused(role)
    ensures r.Err? ==> r.error == "Invalid author role"
    ensures r.Ok? ==> IsCmsRole(r.value)
    ensures Nullish(role) || role == Str("") ==> r == Ok("author")
    ensures ParseAuthorRole(role).Some? ==> r == Ok(ParseAuthorRole(role).value)
  {
    var parsed := ParseAuthorRole(role);
    if role != Undefined && role != Null && role != Str("") && parsed.None? then Err("Invalid author role")
    else if parsed.Some? then Ok(parsed.value)
    else Ok("author")
  }

  /** `create`: an invalid role is refused before anything is written;
      otherwise the trimmed fields, `author` as the default role. */
  function CreateAuthor(input: Value, fileIdByUrl: string -> Option<int>): (r: Result<NewAuthor, string>)
    ensures r.Err? <==> RoleRefused(Get(input, "role"))
    ensures r.Err? ==> r.error == "Invalid author role"
    ensures r.Ok? ==> IsCmsRole(r.value.role)
    ensures r.Ok? && Nullish(Get(input, "role")) ==> r.value.role == "author"
    ensures r.Ok? && ParseAuthorRole(Get(input, "role")).Some? ==> r.value.role == ParseAuthorRole(Get(input, "role")).value
    ensures r.Ok? ==>
      r.value.name == ParseString(Get(input, "name")).GetOr("")
      && r.value.email == ParseString(Get(input, "email")).GetOr("")
      && r.value.avatar == ResolveAvatarId(AvatarRequest(input), fileIdByUrl)
  {
    var avatar := ResolveAvatarId(AvatarRequest(input), fileIdByUrl);
    match CreateRole(Get(input, "role"))
    case Err(e) => Err(e)
    case Ok(role) =>
      Ok(NewAuthor(
        ParseString(Get(input, "name")).GetOr(""),
        ParseString(Get(input, "nameHindi")),
        ParseString(Get(input, "email")).GetOr(""),
        ParseString(Get(input, "bio")),
        ParseString(Get(input, "bioHindi")),
        role,
        ParseRelationId(Get(input, "user")),
        avatar))
  }

  // ---------------------------------------------------------------------------
  // update

  /** `parseString(v) ?? null`. */
  function TextOrNull(v: Value): (r: Value)
    ensures r == Null || (r.Str? && r.s != [])
  {
    match ParseString(v)
    case Some(s) => Str(s)
    case None => Null
  }

  /** The patch `update` writes: one entry per attribute it can write,
      `None` when the key is left out of the patch. */
  datatype Patch = Patch(name: Option<Value>, nameHindi: Option<Value>, email: Option<Value>, bio: Option<Value>,
    bioHindi: Option<Value>, role: Option<Value>, user: Option<Value>, avatar: Option<Value>)

  const EmptyPatch := Patch(None, None, None, None, None, None, None, None)

  /** `if (parseString(input.k)) patch.k = parseString(input.k)`: the name
      and e-mail are written only with text. */
  function Named(input: Value, k: string): (r: Option<Value>)
    ensures r.Some? <==> ParseString(Get(input, k)).Some?
    ensures r.Some? ==> r.value.Str? && r.value.s != [] && NoSpaceAtEdges(r.value.s)
  {
    match ParseString(Get(input, k))
    case Some(s) => Some(Str(s))
    case None => None
  }

  /** `if (input.k !== undefined) patch.k = parseString(input.k) ?? null`:
      the Hindi name and the bios are written whenever given, blank as `null`. */
  function Blankable(input: Value, k: string): (r: Option<Value>)
    ensures r.Some? <==> Get(input, k) != Undefined
    ensures r.Some? ==> (r.value == Null <==> ParseString(Get(input, k)).None?)
  {
    if Get(input, k) != Undefined then Some(TextOrNull(Get(input, k))) else None
  }

  /** A blank or `null` value clears a blankable field. */
  lemma BlankClears(input: Value, k: string)
    requires Get(input, k) == Null || (Get(input, k).Str? && Trim(Get(input, k).s) == [])
    ensures Blankable(input, k) == Some(Null)
  {
  }

  /** The role `update` writes: none when the request has no role, `author`
      for `null` or `''`, a valid role as given, a refusal otherwise. */
  function UpdateRole(role: Value): (r: Result<Option<Value>, string>)
    ensures r.Ok? && r.value.Some? ==> r.value.value.Str? && IsCmsRole(r.value.value.s)
  {
    if role == Undefined then Ok(None)
    else if role == Null || role == Str("") then Ok(Some(Str("author")))
    else match ParseAuthorRole(role)
      case Some(parsed) => Ok(Some(Str(parsed)))
      case None => Err("Invalid author role")
  }

  /** `create` and `update` agree on a given role: the same refusals, the
      same default and the same accepted roles. */
  lemma UpdateRoleAgreesWithCreate(role: Value)
    requires role != Undefined
    ensures UpdateRole(role).Err? <==> CreateRole(role).Err?
    ensures UpdateRole(role).Err? ==> UpdateRole(role).error == CreateRole(role).error
    ensures UpdateRole(role).Ok? ==> UpdateRole(role).value == Some(Str(CreateRole(role).value))
  {
  }

  /** `if (input.user !== undefined) patch.user = parseRelationId(input.user) ?? null`. */
  function UserValue(input: Value): (r: Option<Value>)
    ensures r.Some? <==> Get(input, "user") != Undefined
    ensures r.Some? ==> r.value == Null || (r.value.Num? && r.value.n > 0)
  {
    if Get(input, "user") != Undefined then
      match ParseRelationId(Get(input, "user"))
      case Some(id) => Some(Num(id))
      case None => Some(Null)
    else None
  }

  /** The avatar `update` writes: `null` to clear it, a file id to set it,
      nothing when the request gives no avatar or one that resolves to no
      file. */
  function AvatarValue(input: Value, fileIdByUrl: string -> Option<int>): (r: Option<Value>)
    ensures r.Some? ==> Get(input, "avatar") != Undefined || Get(input, "avatarId") != Undefined
    ensures r == Some(Null) <==>
      (Get(input, "avatar") != Undefined || Get(input, "avatarId") != Undefined)
      && (AvatarRequest(input) == Null || AvatarRequest(input) == Str(""))
    ensures ((Get(input, "avatar") != Undefined || Get(input, "avatarId") != Undefined)
             && ResolveAvatarId(AvatarRequest(input), fileIdByUrl).AvatarFile?) ==>
      r == Some(Num(ResolveAvatarId(AvatarRequest(input), fileIdByUrl).id))
    ensures ((Get(input, "avatar") != Undefined || Get(input, "avatarId") != Undefined)
             && ResolveAvatarId(AvatarRequest(input), fileIdByUrl) == KeepAvatar) ==> r == None
  {
    if Get(input, "avatar") != Undefined || Get(input, "avatarId") != Undefined then
      match ResolveAvatarId(AvatarRequest(input), fileIdByUrl)
      case ClearAvatar => Some(Null)
      case AvatarFile(id) => Some(Num(id))
      case KeepAvatar => None
    else None
  }

  /** The text fields of the `update` patch, written over an empty patch. */
  method WriteTexts(input: Value) returns (patch: Patch)
    ensures patch.name == Named(input, "name") && patch.email == Named(input, "email")
    ensures patch.nameHindi == Blankable(input, "nameHindi") && patch.bio == Blankable(input, "bio")
    ensures patch.bioHindi == Blankable(input, "bioHindi")
    ensures patch.role.None? && patch.user.None? && patch.avatar.None?
  {
    patch := EmptyPatch;
    var name := ParseString(Get(input, "name"));
    if name.Some? {
      patch := patch.(name := Some(Str(name.value)));
    }
    if Get(input, "nameHindi") != Undefined {
      patch := patch.(nameHindi := Some(TextOrNull(Get(input, "nameHindi"))));
    }
    var email := ParseString(Get(input, "email"));
    if email.Some? {
      patch := patch.(email := Some(Str(email.value)));
    }
    if Get(input, "bio") != Undefined {
      patch := patch.(bio := Some(TextOrNull(Get(input, "bio"))));
    }
    if Get(input, "bioHindi") != Undefined {
      patch := patch.(bioHindi := Some(TextOrNull(Get(input, "bioHindi"))));
    }
  }

  /** The role of the `update` patch, written over `patch`; a refusal for
      an invalid role. */
  method WriteRole(patch: Patch, input: Value) returns (r: Result<Patch, string>)
    ensures r.Err? <==> RoleRefused(Get(input, "role"))
    ensures r.Err? ==> r.error == "Invalid author role"
    ensures r.Ok? && Get(input, "role") != Undefined ==> r.value == patch.(role := UpdateRole(Get(input, "role")).value)
    ensures Get(input, "role") == Undefined ==> r == Ok(patch)
  {
    r := Ok(patch);
    var roleRaw := Get(input, "role");
    if roleRaw != Undefined {
      if roleRaw == Null || roleRaw == Str("") {
        r := Ok(patch.(role := Some(Str("author"))));
      } else {
        var role := ParseAuthorRole(roleRaw);
        if role.None? {
          return Err("Invalid author role");
        }
        r := Ok(patch.(role := Some(Str(role.value))));
      }
    }
  }

  /** The linked user and the avatar of the `update` patch, written over `patch`. */
  method WriteRelations(patch: Patch, input: Value, fileIdByUrl: string -> Option<int>) returns (out: Patch)
    ensures out == patch.(user := if Get(input, "user") != Undefined then UserValue(input) else patch.user,
      avatar := if AvatarValue(input, fileIdByUrl).Some? then AvatarValue(input, fileIdByUrl) else patch.avatar)
  {
    out := patch;
    if Get(input, "user") != Undefined {
      var user := ParseRelationId(Get(input, "user"));
      out := out.(user := Some(if user.Some? then Num(user.value) else Null));
    }
    if Get(input, "avatar") != Undefined || Get(input, "avatarId") != Undefined {
      var avatar := ResolveAvatarId(AvatarRequest(input), fileIdByUrl);
      if avatar.ClearAvatar? {
        out := out.(avatar := Some(Null));
      } else if avatar.AvatarFile? {
        out := out.(avatar := Some(Num(avatar.id)));
      }
    }
  }

  /** `update`: the patch is written field by field; an invalid role refuses
      the whole request and nothing is written. */
  method UpdateAuthorPatch(input: Value, fileIdByUrl: string -> Option<int>) returns (r: Result<Patch, string>)
    ensures r.Err? <==> RoleRefused(Get(input, "role"))
    ensures r.Err? ==> r.error == "Invalid author role"
    ensures r.Ok? ==> r.value.name == Named(input, "name") && r.value.email == Named(input, "email")
    ensures r.Ok? ==> (r.value.nameHindi == Blankable(input, "nameHindi") && r.value.bio == Blankable(input, "bio")
      && r.value.bioHindi == Blankable(input, "bioHindi"))
    ensures r.Ok? ==> r.value.role == UpdateRole(Get(input, "role")).value
    ensures r.Ok? ==> r.value.user == UserValue(input) && r.value.avatar == AvatarValue(input, fileIdByUrl)
  {
    var texts := WriteTexts(input);
    r := WriteRole(texts, input);
    if r.Ok? {
      var patch := WriteRelations(r.value, input, fileIdByUrl);
      r := Ok(patch);
    }
  }
}
