/** The `news_keywords` lists of articles and editorials: candidate keywords
    are filtered through a set of the lower-cased keywords already taken, so
    that the first spelling of each keyword wins, and the list is capped at
    twelve entries joined by ", ". */
module Keywords {
  import opened Text
  import opened Js

  const MaxKeywords: nat := 12
  const KeywordSeparator: string := ", "

  /** The keywords kept from `ks` by the `seen`-set filter, starting from the
      lower-cased keywords in `seen`: empty ones and ones already seen (ignoring
      ASCII case) are dropped. */
  function Deduped(ks: seq<string>, seen: set<string>): (r: seq<string>)
    ensures |r| <= |ks|
    ensures forall i :: 0 <= i < |r| ==> r[i] != [] && r[i] in ks && Lower(r[i]) !in seen
    ensures forall i, j :: 0 <= i < j < |r| ==> Lower(r[i]) != Lower(r[j])
  {
    if ks == [] then []
    else if ks[0] == [] || Lower(ks[0]) in seen then Deduped(ks[1..], seen)
    else [ks[0]] + Deduped(ks[1..], seen + {Lower(ks[0])})
  }

  /** The lower-cased keywords of a list. */
  function LowerSet(ks: seq<string>): set<string> {
    set i | 0 <= i < |ks| :: Lower(ks[i])
  }

  /** No keyword is lost: every non-empty candidate is either already seen or
      kept in some spelling. */
  lemma {:induction false} DedupedComplete(ks: seq<string>, seen: set<string>)
    ensures forall i :: 0 <= i < |ks| && ks[i] != [] ==> Lower(ks[i]) in seen + LowerSet(Deduped(ks, seen))
  {
    if ks != [] {
      var r := Deduped(ks, seen);
      if ks[0] == [] || Lower(ks[0]) in seen {
        DedupedComplete(ks[1..], seen);
        forall i | 0 <= i < |ks| && ks[i] != []
          ensures Lower(ks[i]) in seen + LowerSet(r)
        {
          if i > 0 { assert ks[i] == ks[1..][i - 1]; }
        }
      } else {
        var seen' := seen + {Lower(ks[0])};
        var rest := Deduped(ks[1..], seen');
        DedupedComplete(ks[1..], seen');
        assert r == [ks[0]] + rest;
        assert Lower(r[0]) in LowerSet(r);
        forall i | 0 <= i < |ks| && ks[i] != []
          ensures Lower(ks[i]) in seen + LowerSet(r)
        {
          if i > 0 {
            assert ks[i] == ks[1..][i - 1];
            if Lower(ks[i]) in LowerSet(rest) {
              var j :| 0 <= j < |rest| && Lower(rest[j]) == Lower(ks[i]);
              assert r[j + 1] == rest[j];
            }
          }
        }
      }
    }
  }

  /** The seen-set after filtering `ks`. */
  function SeenAfter(ks: seq<string>, seen: set<string>): set<string> {
    if ks == [] then seen
    else SeenAfter(ks[1..], if ks[0] == [] then seen else seen + {Lower(ks[0])})
  }

  /** Filtering a concatenation filters the first part, then the second part
      against everything the first part saw: earlier candidates keep their
      order and come first. */
  lemma {:induction false} DedupedAppend(a: seq<string>, b: seq<string>, seen: set<string>)
    ensures Deduped(a + b, seen) == Deduped(a, seen) + Deduped(b, SeenAfter(a, seen))
  {
    if a == [] {
      assert a + b == b;
    } else {
      assert (a + b)[0] == a[0] && (a + b)[1..] == a[1..] + b;
      if a[0] == [] || Lower(a[0]) in seen {
        DedupedAppend(a[1..], b, seen);
        if a[0] != [] {
          assert seen + {Lower(a[0])} == seen;
        }
      } else {
        DedupedAppend(a[1..], b, seen + {Lower(a[0])});
      }
    }
  }

  /** The keyword filter: a loop over the candidates with a `seen` set. */
  method KeepFirstCaseless(ks: seq<string>) returns (out: seq<string>)
    ensures out == Deduped(ks, {})
  {
    out := [];
    var seen: set<string> := {};
    var i := 0;
    while i < |ks|
      invariant 0 <= i <= |ks|
      invariant out + Deduped(ks[i..], seen) == Deduped(ks, {})
    {
      var k := ks[i];
      assert ks[i..][0] == k && ks[i..][1..] == ks[i + 1..];
      if k != [] && Lower(k) !in seen {
        out := out + [k];
        seen := seen + {Lower(k)};
      }
      i := i + 1;
    }
    assert ks[|ks|..] == [];
  }

  // ---------------------------------------------------------------------------
  // buildNewsKeywords (articles)

  /** The fixed keywords after the category name. */
  const NewsBaseKeywords: seq<string> := ["रामपुर", "Rampur", "Rampur News", "रामपुर न्यूज़",
    "उत्तर प्रदेश", "Uttar Pradesh", "India News", "Hindi News"]

  /** The non-empty elements, in order (`filter(Boolean)` on strings). */
  function NonEmpty(ks: seq<string>): (r: seq<string>)
    ensures forall i :: 0 <= i < |r| ==> r[i] != [] && r[i] in ks
    ensures forall k :: k in ks && k != [] ==> k in r
    ensures |r| <= |ks|
  {
    if ks == [] then []
    else if ks[0] == [] then NonEmpty(ks[1..])
    else [ks[0]] + NonEmpty(ks[1..])
  }

  /** `tags.map((t) => String(t || '').trim()).filter(Boolean)` for an array, nothing otherwise. */
  function TagTexts(tags: Value): (r: seq<string>)
    ensures forall i :: 0 <= i < |r| ==> r[i] != [] && NoSpaceAtEdges(r[i])
  {
    if tags.Arr? then
      NonEmpty(seq(|tags.items|, i requires 0 <= i < |tags.items| => Trim(TextOf(tags.items[i]))))
    else []
  }

  /** The tags, then the category name and the fixed keywords: every
      candidate has text, the tag texts come first, and the trimmed category
      name (when it has text) and every fixed keyword are among them. */
  function NewsCandidates(categoryName: string, tags: Value): (r: seq<string>)
    ensures forall i :: 0 <= i < |r| ==> r[i] != []
    ensures |TagTexts(tags)| <= |r| && r[..|TagTexts(tags)|] == TagTexts(tags)
    ensures Trim(categoryName) != [] ==> Trim(categoryName) in r
    ensures forall k :: k in NewsBaseKeywords ==> k in r
  {
    BaseKeywordsHaveText();
    CandidatesShape(TagTexts(tags), Trim(categoryName), NewsBaseKeywords);
    TagTexts(tags) + NonEmpty([Trim(categoryName)] + NewsBaseKeywords)
  }

  lemma CandidatesShape(front: seq<string>, c: string, base: seq<string>)
    requires forall i :: 0 <= i < |front| ==> front[i] != []
    requires forall k :: k in base ==> k != []
    ensures forall i :: 0 <= i < |front + NonEmpty([c] + base)| ==> (front + NonEmpty([c] + base))[i] != []
    ensures c != [] ==> c in front + NonEmpty([c] + base)
    ensures forall k :: k in base ==> k in front + NonEmpty([c] + base)
  {
    var tail := [c] + base;
    var kept := NonEmpty(tail);
    assert forall k :: k in base ==> k in tail;
    assert forall k :: k in kept ==> k in front + kept;
  }

  lemma BaseKeywordsHaveText()
    ensures forall k :: k in NewsBaseKeywords ==> k != []
  {
  }

  /** The keyword list of `buildNewsKeywords`, before joining. */
  function NewsKeywordList(categoryName: string, tags: Value): (r: seq<string>)
    ensures |r| <= MaxKeywords
    ensures forall i :: 0 <= i < |r| ==> r[i] != [] && r[i] in NewsCandidates(categoryName, tags)
    ensures forall i, j :: 0 <= i < j < |r| ==> Lower(r[i]) != Lower(r[j])
  {
    Take(Deduped(NewsCandidates(categoryName, tags), {}), MaxKeywords)
  }

  /** The tags come first, in their own order, ahead of every base keyword. */
  lemma NewsKeywordsTagsFirst(categoryName: string, tags: Value)
    ensures Deduped(NewsCandidates(categoryName, tags), {}) ==
      Deduped(TagTexts(tags), {})
      + Deduped(NonEmpty([Trim(categoryName)] + NewsBaseKeywords), SeenAfter(TagTexts(tags), {}))
  {
    DedupedAppend(TagTexts(tags), NonEmpty([Trim(categoryName)] + NewsBaseKeywords), {});
  }

  /** `buildNewsKeywords`. */
  method BuildNewsKeywords(categoryName: string, tags: Value) returns (r: string)
    ensures r == Join(NewsKeywordList(categoryName, tags), KeywordSeparator)
  {
    var kept := KeepFirstCaseless(NewsCandidates(categoryName, tags));
    r := Join(Take(kept, MaxKeywords), KeywordSeparator);
  }

  // ---------------------------------------------------------------------------
  // buildEditorialKeywords

  /** The type label: the Hindi and English names joined by a comma, so it
      gives two keywords once split; an unknown type gets the generic label. */
  function EditorialTypeKeywords(editorialType: string): (r: string)
    ensures ',' in r && r[0] != ',' && r[|r| - 1] != ','
  {
    if editorialType == "opinion" then "विचार, Opinion"
    else if editorialType == "review" then "रिव्यू, Review"
    else if editorialType == "interview" then "इंटरव्यू, Interview"
    else if editorialType == "special-report" then "स्पेशल रिपोर्ट, Special Report"
    else "संपादकीय, Editorial"
  }

  const EditorialBaseKeywords: seq<string> := ["रामपुर", "Rampur", "Rampur News", "रामपुर न्यूज़",
    "उत्तर प्रदेश", "Uttar Pradesh", "Hindi News"]

  /** The candidate phrases: the author name when there is one, the type label, the fixed keywords. */
  function EditorialPhrases(editorialType: string, authorName: string): (r: seq<string>)
    ensures |r| == |EditorialBaseKeywords| + (if authorName != [] then 2 else 1)
    ensures authorName != [] ==> r[0] == authorName
    ensures authorName == [] ==> authorName !in r
    ensures EditorialTypeKeywords(editorialType) in r
    ensures forall k :: k in EditorialBaseKeywords ==> k in r
  {
    var base := [EditorialTypeKeywords(editorialType)] + EditorialBaseKeywords;
    if authorName != [] then [authorName] + base else base
  }

  /** `flatMap((k) => k.split(',').map((s) => s.trim()))`: at least one
      piece per phrase, each without white space at its ends. */
  function Pieces(phrases: seq<string>): (r: seq<string>)
    ensures |r| >= |phrases|
    ensures AllTrimmed(r)
  {
    if phrases == [] then []
    else
      var parts := Split(phrases[0], ',');
      var trimmed := seq(|parts|, i requires 0 <= i < |parts| => Trim(parts[i]));
      var more := Pieces(phrases[1..]);
      assert AllTrimmed(trimmed);
      AllTrimmedAppend(trimmed, more);
      trimmed + more
  }

  /** Every piece is without white space at its ends. */
  predicate AllTrimmed(pieces: seq<string>) {
    forall i :: 0 <= i < |pieces| ==> NoSpaceAtEdges(pieces[i])
  }

  lemma AllTrimmedAppend(a: seq<string>, b: seq<string>)
    requires AllTrimmed(a) && AllTrimmed(b)
    ensures AllTrimmed(a + b)
  {
    forall i | 0 <= i < |a + b|
      ensures NoSpaceAtEdges((a + b)[i])
    {
      if i >= |a| {
        assert (a + b)[i] == b[i - |a|];
      }
    }
  }

  /** The keyword list of `buildEditorialKeywords`, before joining. */
  function EditorialKeywordList(editorialType: string, authorName: string): (r: seq<string>)
    ensures |r| <= MaxKeywords
    ensures forall i :: 0 <= i < |r| ==> r[i] != [] && r[i] in Pieces(EditorialPhrases(editorialType, authorName))
    ensures forall i, j :: 0 <= i < j < |r| ==> Lower(r[i]) != Lower(r[j])
  {
    Take(Deduped(Pieces(EditorialPhrases(editorialType, authorName)), {}), MaxKeywords)
  }

  /** A first phrase with text and no comma is the first piece and the first keyword kept. */
  lemma FirstPhraseFirst(phrases: seq<string>)
    requires phrases != [] && Trim(phrases[0]) != []
    requires forall j :: 0 <= j < |phrases[0]| ==> phrases[0][j] != ','
    ensures Deduped(Pieces(phrases), {}) != []
    ensures Deduped(Pieces(phrases), {})[0] == Trim(phrases[0])
  {
    SplitWithoutSeparator(phrases[0], ',');
    var p := Pieces(phrases);
    assert p[0] == Trim(phrases[0]);
  }

  /** An author name with text and no comma is the first keyword of an editorial. */
  lemma EditorialKeywordsAuthorFirst(editorialType: string, authorName: string)
    requires Trim(authorName) != []
    requires forall j :: 0 <= j < |authorName| ==> authorName[j] != ','
    ensures EditorialKeywordList(editorialType, authorName) != []
    ensures EditorialKeywordList(editorialType, authorName)[0] == Trim(authorName)
  {
    var phrases := EditorialPhrases(editorialType, authorName);
    assert phrases[0] == authorName;
    FirstPhraseFirst(phrases);
  }

  /** A string without the separator splits into itself. */
  lemma {:induction false} SplitWithoutSeparator(s: string, sep: char)
    requires forall j :: 0 <= j < |s| ==> s[j] != sep
    ensures Split(s, sep) == [s]
  {
    if s != [] {
      SplitWithoutSeparator(s[1..], sep);
      assert s == [s[0]] + s[1..];
    }
  }

  /** `buildEditorialKeywords`. */
  method BuildEditorialKeywords(editorialType: string, authorName: string) returns (r: string)
    ensures r == Join(EditorialKeywordList(editorialType, authorName), KeywordSeparator)
  {
    var kept := KeepFirstCaseless(Pieces(EditorialPhrases(editorialType, authorName)));
    r := Join(Take(kept, MaxKeywords), KeywordSeparator);
  }
}
