/** The four CMS roles and the two ways the code reads a role: the label of a
    stored role record (its type, else its name, trimmed and lower-cased),
    used by the `cms-role` policy and by `normalizeRoleType` in the
    admin-user controller, and the exact spelling `parseAuthorRole` accepts
    in the author controller. */
module Roles {
  import opened Wrappers
  import opened Text
  import opened Js

  const CmsRoles: seq<string> := ["admin", "editor", "author", "contributor"]

  /** One of the four roles. They are plain lower-case words, none of them
      `administrator`. */
  predicate IsCmsRole(s: string)
    ensures IsCmsRole(s) ==> s != [] && s != "administrator" && NoSpaceAtEdges(s)
    ensures IsCmsRole(s) ==> forall i :: 0 <= i < |s| ==> !IsUpperAscii(s[i])
  {
    if s in CmsRoles then
      assert s == "admin" || s == "editor" || s == "author" || s == "contributor";
      true
    else false
  }

  /** `(type || name || '').trim().toLowerCase()`, where `type` and `name`
      count only when they are strings. */
  function RoleLabel(role: Value): (r: string)
    ensures NoSpaceAtEdges(r)
    ensures forall i :: 0 <= i < |r| ==> !IsUpperAscii(r[i])
    ensures Get(role, "type").Str? && Get(role, "type").s != [] ==> r == Lower(Trim(Get(role, "type").s))
    ensures !(Get(role, "type").Str? && Get(role, "type").s != []) && Get(role, "name").Str? ==>
      r == Lower(Trim(Get(role, "name").s))
    ensures !Get(role, "type").Str? && !Get(role, "name").Str? ==> r == []
  {
    var t := Get(role, "type");
    var n := Get(role, "name");
    var chosen := if t.Str? && t.s != [] then t.s else if n.Str? then n.s else [];
    var trimmed := Trim(chosen);
    LowerEdges(trimmed);
    Lower(trimmed)
  }

  /** `normalizeRoleType`: the label of a role when it names a CMS role, with
      `administrator` read as `admin`. */
  function NormalizeRoleType(role: Value): (r: Option<string>)
    ensures r.Some? ==> IsCmsRole(r.value)
    ensures r == Some("admin") <==> RoleLabel(role) == "admin" || RoleLabel(role) == "administrator"
    ensures r.Some? && r.value != "admin" ==> r.value == RoleLabel(role)
    ensures r.None? <==> !IsCmsRole(RoleLabel(role)) && RoleLabel(role) != "administrator"
  {
    var roleLabel := RoleLabel(role);
    if roleLabel == [] then None
    else if roleLabel == "administrator" then Some("admin")
    else if IsCmsRole(roleLabel) then Some(roleLabel)
    else None
  }

  /** `parseAuthorRole`: the trimmed value when it is one of the four roles
      exactly as spelled (no case folding). */
  function ParseAuthorRole(v: Value): (r: Option<string>)
    ensures r.Some? <==> v.Str? && IsCmsRole(Trim(v.s))
    ensures r.Some? ==> r.value == Trim(v.s)
  {
    match ParseString(v)
    case Some(role) => if IsCmsRole(role) then Some(role) else None
    case None => None
  }

  /** A word of lower-case ASCII letters is its own trimmed, lower-cased label. */
  lemma LowerWordIsItsOwnLabel(s: string)
    requires forall i :: 0 <= i < |s| ==> IsLowerAscii(s[i])
    ensures Lower(Trim(s)) == s
  {
    assert Trim(s) == s by {
      if s != [] {
        assert !IsSpace(s[0]) && !IsSpace(s[|s| - 1]);
      }
      TrimIdentity(s);
    }
    assert Lower(s) == s by {
      LowerIdentity(s);
    }
  }

  /** A role spelled in lower case, with no surrounding blanks, reads the
      same through both parsers. */
  lemma LowerRoleReadsAlike(s: string)
    requires IsCmsRole(s)
    ensures ParseAuthorRole(Str(s)) == Some(s)
    ensures NormalizeRoleType(Js.Obj(map["type" := Str(s)])) == Some(s)
  {
    TrimIdentity(s);
    LowerIdentity(s);
    var role := Js.Obj(map["type" := Str(s)]);
    assert Get(role, "type") == Str(s);
    assert RoleLabel(role) == s;
  }

  /** `normalizeRoleType` applied to a bare string (as the admin-user
      controller does with the requested `roleType`) never yields a role:
      a string has no `type` or `name`. */
  lemma RoleTypeOfStringIsUndefined(s: string)
    ensures NormalizeRoleType(Str(s)) == None
  {
  }
}
