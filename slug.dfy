/** The two slug generators of the CMS.

    `Slugify` is the controllers' `slugify` (article and editorial
    controllers): lower-case, drop everything but ASCII word characters, white
    space and hyphens, turn white-space runs into one hyphen, collapse hyphen
    runs, trim, strip hyphens at both ends. Devanagari text is dropped
    entirely.

    `ToSlug` is the article lifecycle's `toSlug`: trim, lower-case, turn every
    run of characters outside a-z, 0-9 and the Devanagari block U+0900-U+097F
    into one hyphen, collapse hyphen runs, strip one hyphen at each end. */
module Slug {
  import opened Text
  import opened Js

  predicate IsHyphen(c: char) { c == '-' }

  /** `\w`: an ASCII letter, digit or underscore. */
  predicate IsWordChar(c: char) { IsUpperAscii(c) || IsLowerAscii(c) || IsDigit(c) || c == '_' }

  /** Kept by `.replace(/[^\w\s-]/g, '')`. */
  predicate Kept(c: char) { IsWordChar(c) || IsSpace(c) || IsHyphen(c) }

  /** A character a controller slug may contain. */
  predicate IsSlugChar(c: char) { IsLowerAscii(c) || IsDigit(c) || c == '_' || c == '-' }

  predicate IsDevanagari(c: char) { '\U{0900}' <= c <= '\U{097F}' }

  /** A character `toSlug` keeps (everything else becomes a hyphen). */
  predicate IsToSlugChar(c: char) { IsLowerAscii(c) || IsDigit(c) || IsDevanagari(c) }

  predicate NotToSlugChar(c: char) { !IsToSlugChar(c) }

  predicate NoDoubleHyphen(s: string) {
    forall i :: 0 <= i < |s| - 1 ==> !(s[i] == '-' && s[i + 1] == '-')
  }

  predicate NoHyphenAtEdges(s: string) {
    s == [] || (s[0] != '-' && s[|s| - 1] != '-')
  }

  /** The shape every controller slug has. */
  predicate IsSlug(s: string) {
    (forall i :: 0 <= i < |s| ==> IsSlugChar(s[i])) && NoDoubleHyphen(s) && NoHyphenAtEdges(s)
  }

  /** The shape every lifecycle slug has. */
  predicate IsLifecycleSlug(s: string) {
    (forall i :: 0 <= i < |s| ==> IsToSlugChar(s[i]) || s[i] == '-') && NoDoubleHyphen(s) && NoHyphenAtEdges(s)
  }

  function KeepWordSpaceHyphen(s: string): (r: string)
    ensures |r| <= |s|
    ensures forall i :: 0 <= i < |r| ==> Kept(r[i])
  {
    if s == [] then []
    else (if Kept(s[0]) then [s[0]] else []) + KeepWordSpaceHyphen(s[1..])
  }

  /** The leading-hyphen half of `.replace(/^-+|-+$/g, '')`. */
  function DropLeadingHyphens(s: string): (r: string)
    ensures |r| <= |s| && r == s[|s| - |r|..]
    ensures r == [] || r[0] != '-'
  {
    if s != [] && s[0] == '-' then DropLeadingHyphens(s[1..]) else s
  }

  /** The trailing-hyphen half of `.replace(/^-+|-+$/g, '')`. */
  function DropTrailingHyphens(s: string): (r: string)
    ensures |r| <= |s| && r == s[..|r|]
    ensures r == [] || r[|r| - 1] != '-'
  {
    if s != [] && s[|s| - 1] == '-' then DropTrailingHyphens(s[..|s| - 1]) else s
  }

  /** `.replace(/^-+|-+$/g, '')`. */
  function StripHyphens(s: string): (r: string)
    ensures |r| <= |s|
    ensures NoHyphenAtEdges(r)
  {
    var t := DropLeadingHyphens(s);
    var r := DropTrailingHyphens(t);
    assert r != [] ==> r[0] == t[0];
    r
  }

  /** `.replace(/^-|-$/g, '')`: at most one hyphen goes at each end. */
  function StripOneHyphen(s: string): (r: string)
    ensures |r| <= |s|
  {
    var t := if s != [] && s[0] == '-' then s[1..] else s;
    if t != [] && t[|t| - 1] == '-' then t[..|t| - 1] else t
  }

  /** The controllers' `slugify`. Every such slug uses only a-z, 0-9, `_` and
      `-`, never holds two hyphens in a row and neither starts nor ends with
      a hyphen. */
  function Slugify(value: string): (r: string)
    ensures IsSlug(r)
  {
    var lowered := Lower(value);
    var kept := KeepWordSpaceHyphen(lowered);
    KeepSubsequence(lowered);
    var dashed := ReplaceRuns(kept, IsSpace, '-');
    ReplaceRunsChars(kept, IsSpace, '-', IsSlugChar);
    var collapsed := ReplaceRuns(dashed, IsHyphen, '-');
    ReplaceRunsChars(dashed, IsHyphen, '-', IsSlugChar);
    HyphenRunsCollapsed(dashed);
    assert forall i :: 0 <= i < |collapsed| ==> !IsSpace(collapsed[i]);
    TrimIdentity(collapsed);
    StripHyphensKeepsChars(collapsed, IsSlugChar);
    StripHyphensNoDouble(collapsed);
    StripHyphens(Trim(collapsed))
  }

  /** The article lifecycle's `toSlug` of `String(value || '')`. Every such
      slug uses only a-z, 0-9, Devanagari and `-`, never holds two hyphens in
      a row and neither starts nor ends with a hyphen. */
  function ToSlug(value: Value): (r: string)
    ensures IsLifecycleSlug(r)
  {
    var text := Lower(Trim(TextOf(value)));
    var dashed := ReplaceRuns(text, NotToSlugChar, '-');
    ReplaceRunsChars(text, NotToSlugChar, '-', IsToSlugOrHyphen);
    var collapsed := ReplaceRuns(dashed, IsHyphen, '-');
    ReplaceRunsChars(dashed, IsHyphen, '-', IsToSlugOrHyphen);
    HyphenRunsCollapsed(dashed);
    StripOneHyphenShape(collapsed, IsToSlugOrHyphen);
    StripOneHyphen(collapsed)
  }

  /** The hyphen strip returns a contiguous part of its input. */
  lemma {:induction false} StripHyphensInfix(s: string) returns (k: nat)
    ensures k + |StripHyphens(s)| <= |s|
    ensures StripHyphens(s) == s[k..k + |StripHyphens(s)|]
  {
    var t := DropLeadingHyphens(s);
    var r := DropTrailingHyphens(t);
    assert StripHyphens(s) == r;
    k := |s| - |t|;
    assert r == s[k..][..|r|];
  }

  lemma StripHyphensKeepsChars(s: string, q: char -> bool)
    requires forall i :: 0 <= i < |s| ==> q(s[i])
    ensures forall i :: 0 <= i < |StripHyphens(s)| ==> q(StripHyphens(s)[i])
  {
    var k := StripHyphensInfix(s);
  }

  lemma StripHyphensNoDouble(s: string)
    requires NoDoubleHyphen(s)
    ensures NoDoubleHyphen(StripHyphens(s))
  {
    var k := StripHyphensInfix(s);
  }

  lemma StripHyphensIdentity(s: string)
    requires NoHyphenAtEdges(s)
    ensures StripHyphens(s) == s
  {
  }

  /** Stripping one hyphen at each end of a string without doubled hyphens
      leaves no hyphen at either end, and keeps the rest. */
  lemma StripOneHyphenShape(s: string, q: char -> bool)
    requires NoDoubleHyphen(s)
    requires forall i :: 0 <= i < |s| ==> q(s[i])
    ensures NoHyphenAtEdges(StripOneHyphen(s)) && NoDoubleHyphen(StripOneHyphen(s))
    ensures forall i :: 0 <= i < |StripOneHyphen(s)| ==> q(StripOneHyphen(s)[i])
  {
    var k := StripOneHyphenInfix(s);
    StripOneHyphenEdges(s);
  }

  /** The single-hyphen strip returns a contiguous part of its input. */
  lemma StripOneHyphenInfix(s: string) returns (k: nat)
    ensures k + |StripOneHyphen(s)| <= |s|
    ensures StripOneHyphen(s) == s[k..k + |StripOneHyphen(s)|]
  {
    k := if s != [] && s[0] == '-' then 1 else 0;
    var t := s[k..];
    assert StripOneHyphen(s) == t[..|StripOneHyphen(s)|];
  }

  /** Without double hyphens, one hyphen at each end is all there is to strip. */
  lemma StripOneHyphenEdges(s: string)
    requires NoDoubleHyphen(s)
    ensures NoHyphenAtEdges(StripOneHyphen(s))
  {
    var r := StripOneHyphen(s);
    var k := if s != [] && s[0] == '-' then 1 else 0;
    var t := s[k..];
    if r != [] {
      assert r[0] == t[0] == s[k];
      if k == 1 { assert !(s[0] == '-' && s[1] == '-'); }
      if t[|t| - 1] == '-' {
        assert r[|r| - 1] == t[|t| - 2] == s[k + |t| - 2];
        assert s[k + |t| - 1] == '-';
        assert s[k + |t| - 2] != '-';
      } else {
        assert r == t;
      }
    }
  }

  lemma {:induction false} KeepIdentity(s: string)
    requires forall i :: 0 <= i < |s| ==> Kept(s[i])
    ensures KeepWordSpaceHyphen(s) == s
  {
    if s != [] {
      KeepIdentity(s[1..]);
      assert s == [s[0]] + s[1..];
    }
  }

  lemma {:induction false} KeepDropsAll(s: string)
    requires forall i :: 0 <= i < |s| ==> !Kept(s[i])
    ensures KeepWordSpaceHyphen(s) == []
  {
    if s != [] { KeepDropsAll(s[1..]); }
  }

  // ---------------------------------------------------------------------------
  // Properties of the controllers' slugs

  /** Kept characters of a lower-cased text are never upper-case letters. */
  lemma {:induction false} KeepSubsequence(s: string)
    requires forall i :: 0 <= i < |s| ==> !IsUpperAscii(s[i])
    ensures forall i :: 0 <= i < |KeepWordSpaceHyphen(s)| ==> !IsUpperAscii(KeepWordSpaceHyphen(s)[i])
  {
    if s != [] { KeepSubsequence(s[1..]); }
  }

  /** A controller slug is its own slug. */
  lemma SlugifyFixesSlug(s: string)
    requires IsSlug(s)
    ensures Slugify(s) == s
  {
    LowerIdentity(s);
    KeepIdentity(s);
    ReplaceRunsIdentity(s, IsSpace, '-');
    ReplaceRunsIdentity(s, IsHyphen, '-');
    TrimIdentity(s);
    StripHyphensIdentity(s);
  }

  /** Slugifying a slug changes nothing. */
  lemma SlugifyIdempotent(value: string)
    ensures Slugify(Slugify(value)) == Slugify(value)
  {
    SlugifyFixesSlug(Slugify(value));
  }

  /** A text without ASCII letters, digits, underscores or hyphens (for
      instance a headline written only in Devanagari) has the empty slug. */
  lemma SlugifyOfNonAscii(value: string)
    requires forall i :: 0 <= i < |value| ==> !IsWordChar(value[i]) && value[i] != '-'
    ensures Slugify(value) == []
  {
    var lowered := Lower(value);
    LowerOfNonWord(value);
    var kept := KeepWordSpaceHyphen(lowered);
    ReplaceRunsCharsKeep(lowered);
    var collapsed := ReplaceRuns(ReplaceRuns(kept, IsSpace, '-'), IsHyphen, '-');
    SpacesBecomeHyphens(kept);
    HyphensOnlyStripToEmpty(collapsed);
  }

  lemma LowerOfNonWord(value: string)
    requires forall i :: 0 <= i < |value| ==> !IsWordChar(value[i]) && value[i] != '-'
    ensures forall i :: 0 <= i < |Lower(value)| ==> !IsWordChar(Lower(value)[i]) && Lower(value)[i] != '-'
  {
  }

  lemma HyphensOnlyStripToEmpty(s: string)
    requires forall i :: 0 <= i < |s| ==> s[i] == '-'
    ensures StripHyphens(Trim(s)) == []
  {
    TrimIdentity(s);
    StripHyphensOfHyphens(s);
  }

  /** White space alone turns into hyphens alone. */
  lemma SpacesBecomeHyphens(s: string)
    requires forall i :: 0 <= i < |s| ==> IsSpace(s[i])
    ensures forall i :: 0 <= i < |ReplaceRuns(ReplaceRuns(s, IsSpace, '-'), IsHyphen, '-')| ==>
      ReplaceRuns(ReplaceRuns(s, IsSpace, '-'), IsHyphen, '-')[i] == '-'
  {
    var dashed := ReplaceRuns(s, IsSpace, '-');
    ReplaceRunsChars(s, IsSpace, '-', IsHyphen);
    ReplaceRunsChars(dashed, IsHyphen, '-', IsHyphen);
  }

  lemma {:induction false} ReplaceRunsCharsKeep(s: string)
    requires forall i :: 0 <= i < |s| ==> !IsWordChar(s[i]) && s[i] != '-'
    ensures forall i :: 0 <= i < |KeepWordSpaceHyphen(s)| ==> IsSpace(KeepWordSpaceHyphen(s)[i])
  {
    if s != [] { ReplaceRunsCharsKeep(s[1..]); }
  }

  lemma {:induction false} StripHyphensOfHyphens(s: string)
    requires forall i :: 0 <= i < |s| ==> s[i] == '-'
    ensures StripHyphens(s) == []
  {
    if s != [] { StripHyphensOfHyphens(s[1..]); }
  }

  // ---------------------------------------------------------------------------
  // Properties of the lifecycle slugs

  /** After the hyphen collapse no two hyphens are neighbours. */
  lemma HyphenRunsCollapsed(s: string)
    ensures NoDoubleHyphen(ReplaceRuns(s, IsHyphen, '-'))
  {
    var r := ReplaceRuns(s, IsHyphen, '-');
    ReplaceRunsNoAdjacent(s, IsHyphen, '-');
    assert forall i :: 0 <= i < |r| - 1 ==> !(IsHyphen(r[i]) && IsHyphen(r[i + 1]));
  }

  predicate IsToSlugOrHyphen(c: char) { IsToSlugChar(c) || c == '-' }
}
