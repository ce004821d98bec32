/** `stripHtmlToText` (article and editorial controllers) and `stripHtml`
    (article lifecycle): drop `<script>` and `<style>` blocks, turn every tag
    into a space, collapse white-space runs into one space and trim. Matching of
    the block names ignores ASCII case, as the `/i` regular expressions do. */
module Html {
  import opened Wrappers
  import opened Text
  import opened Js

  /** `s` begins with `p`, ignoring ASCII case (`p` is lower-case). */
  predicate StartsWithIgnoringCase(s: string, p: string) {
    |p| <= |s| && Lower(s[..|p|]) == p
  }

  /** The first position at or after `from` where `p` starts, ignoring ASCII case. */
  function FindIgnoringCase(s: string, from: nat, p: string): (r: Option<nat>)
    requires from <= |s|
    ensures r.Some? ==> from <= r.value && r.value + |p| <= |s| && StartsWithIgnoringCase(s[r.value..], p)
    ensures r.Some? ==> forall j :: from <= j < r.value ==> !StartsWithIgnoringCase(s[j..], p)
    ensures r.None? ==> forall j :: from <= j <= |s| ==> !StartsWithIgnoringCase(s[j..], p)
    decreases |s| - from
  {
    if StartsWithIgnoringCase(s[from..], p) then Some(from)
    else if from == |s| then None
    else FindIgnoringCase(s, from + 1, p)
  }

  /** `s.replace(/<open[\s\S]*?<\/close>/gi, ' ')`: every block from an opening
      marker to the first closing marker after it becomes one space. The text
      never grows, and a text without an opening marker is left as it is. */
  function RemoveBlocks(s: string, open: string, close: string): (r: string)
    requires open != [] && close != []
    ensures |r| <= |s|
    ensures NoMarker(s, open) ==> r == s
    decreases |s|
  {
    if s == [] then []
    else if StartsWithIgnoringCase(s, open) then
      assert s[0..] == s;
      match FindIgnoringCase(s, |open|, close)
      case Some(j) => " " + RemoveBlocks(s[j + |close|..], open, close)
      case None => [s[0]] + RemoveBlocks(s[1..], open, close)
    else
      NoMarkerTail(s, open);
      [s[0]] + RemoveBlocks(s[1..], open, close)
  }

  /** No position of `s` starts the marker `p`, ignoring case. */
  predicate NoMarker(s: string, p: string) {
    forall j :: 0 <= j < |s| ==> !StartsWithIgnoringCase(s[j..], p)
  }

  /** A text without the marker has a tail without it. */
  lemma NoMarkerTail(s: string, p: string)
    requires s != []
    ensures NoMarker(s, p) ==> NoMarker(s[1..], p)
  {
    if NoMarker(s, p) {
      forall j | 0 <= j < |s| - 1
        ensures !StartsWithIgnoringCase(s[1..][j..], p)
      {
        assert s[1..][j..] == s[j + 1..];
      }
    }
  }

  /** The first position at or after `from` holding `c`. */
  function FindChar(s: string, from: nat, c: char): (r: Option<nat>)
    requires from <= |s|
    ensures r.Some? ==> from <= r.value < |s| && s[r.value] == c
    ensures r.Some? ==> forall j :: from <= j < r.value ==> s[j] != c
    ensures r.None? ==> forall j :: from <= j < |s| ==> s[j] != c
    decreases |s| - from
  {
    if from == |s| then None
    else if s[from] == c then Some(from)
    else FindChar(s, from + 1, c)
  }

  /** `s.replace(/<[^>]+>/g, ' ')`: a `<`, at least one character other than
      `>`, then `>`, becomes one space. The text never grows, and a text
      without `<` is left as it is. */
  function TagsToSpaces(s: string): (r: string)
    ensures |r| <= |s|
    ensures '<' !in s ==> r == s
    decreases |s|
  {
    if s == [] then []
    else if s[0] == '<' then
      match FindChar(s, 1, '>')
      case Some(j) =>
        if j >= 2 then " " + TagsToSpaces(s[j + 1..])
        else [s[0]] + TagsToSpaces(s[1..])
      case None => [s[0]] + TagsToSpaces(s[1..])
    else [s[0]] + TagsToSpaces(s[1..])
  }

  /** `s.replace(/\s+/g, ' ')`. */
  function CollapseSpaces(s: string): string {
    ReplaceRuns(s, IsSpace, ' ')
  }

  /** `stripHtmlToText` / `stripHtml` of `String(value || '')`: every text it
      returns is clean. */
  function StripHtml(value: string): (r: string)
    ensures IsCleanText(r)
  {
    var noScripts := RemoveBlocks(value, "<script", "</script>");
    var noStyles := RemoveBlocks(noScripts, "<style", "</style>");
    CollapsedTextIsClean(TagsToSpaces(noStyles));
    Trim(CollapseSpaces(TagsToSpaces(noStyles)))
  }

  /** The text `calcReadTime` counts words in: tags become spaces, white
      space is collapsed and trimmed; script and style blocks stay. */
  function TagFreeText(content: string): string {
    Trim(CollapseSpaces(TagsToSpaces(content)))
  }

  /** Text whose only white space is single ASCII spaces between words. */
  predicate IsCleanText(s: string) {
    NoSpaceAtEdges(s)
    && (forall i :: 0 <= i < |s| ==> IsSpace(s[i]) ==> s[i] == ' ')
    && (forall i :: 0 <= i < |s| - 1 ==> !(IsSpace(s[i]) && IsSpace(s[i + 1])))
  }

  predicate IsPlainSpaceOrText(c: char) { !IsSpace(c) || c == ' ' }

  /** `trim` returns a contiguous part of its input. */
  lemma TrimInfix(s: string) returns (k: nat)
    ensures k + |Trim(s)| <= |s|
    ensures forall i :: 0 <= i < |Trim(s)| ==> Trim(s)[i] == s[k + i]
  {
    var t := TrimStart(s);
    k := |s| - |t|;
  }

  /** A contiguous part of text with only single ASCII spaces has only single ASCII spaces. */
  lemma SpacingOfInfix(c: string, k: nat, r: string)
    requires k + |r| <= |c|
    requires forall i :: 0 <= i < |r| ==> r[i] == c[k + i]
    requires forall i :: 0 <= i < |c| ==> IsPlainSpaceOrText(c[i])
    requires forall i :: 0 <= i < |c| - 1 ==> !(IsSpace(c[i]) && IsSpace(c[i + 1]))
    ensures forall i :: 0 <= i < |r| ==> IsSpace(r[i]) ==> r[i] == ' '
    ensures forall i :: 0 <= i < |r| - 1 ==> !(IsSpace(r[i]) && IsSpace(r[i + 1]))
  {
    forall i | 0 <= i < |r| - 1
      ensures !(IsSpace(r[i]) && IsSpace(r[i + 1]))
    {
      assert r[i] == c[k + i] && r[i + 1] == c[k + i + 1];
    }
  }

  /** Collapsing white space leaves only single ASCII spaces. */
  lemma CollapsedSpacing(s: string)
    ensures forall i :: 0 <= i < |CollapseSpaces(s)| ==> IsPlainSpaceOrText(CollapseSpaces(s)[i])
    ensures forall i :: 0 <= i < |CollapseSpaces(s)| - 1 ==>
      !(IsSpace(CollapseSpaces(s)[i]) && IsSpace(CollapseSpaces(s)[i + 1]))
  {
    ReplaceRunsChars(s, IsSpace, ' ', IsPlainSpaceOrText);
    ReplaceRunsNoAdjacent(s, IsSpace, ' ');
  }

  /** Collapsing and trimming leaves clean text: no white space at the ends,
      only ASCII spaces, never two in a row. */
  lemma CollapsedTextIsClean(s: string)
    ensures IsCleanText(Trim(CollapseSpaces(s)))
  {
    var c := CollapseSpaces(s);
    CollapsedSpacing(s);
    var k := TrimInfix(c);
    SpacingOfInfix(c, k, Trim(c));
  }
}
