/** The headline rules the article lifecycle enforces before saving:
    no all-caps headline, no excessive `!`/`?`, no clickbait phrase. */
module Headline {
  import opened Wrappers
  import opened Text

  predicate IsMark(c: char) { c == '!' || c == '?' }

  /** `/([!?])\1{1,}/.test(text)`, scanning from the left: some `!` or `?` is
      immediately followed by the same character. */
  predicate RepeatedMark(s: string) {
    |s| >= 2 && ((IsMark(s[0]) && s[1] == s[0]) || RepeatedMark(s[1..]))
  }

  /** The scan finds a repeated mark exactly when there is a position holding one. */
  lemma {:induction false} RepeatedMarkAt(s: string)
    ensures RepeatedMark(s) <==> exists i :: 0 <= i < |s| - 1 && IsMark(s[i]) && s[i + 1] == s[i]
  {
    if |s| >= 2 {
      RepeatedMarkAt(s[1..]);
      if exists i :: 0 <= i < |s| - 1 && IsMark(s[i]) && s[i + 1] == s[i] {
        var i :| 0 <= i < |s| - 1 && IsMark(s[i]) && s[i + 1] == s[i];
        if i > 0 {
          assert s[1..][i - 1] == s[i] && s[1..][i] == s[i + 1];
        }
      }
      if RepeatedMark(s[1..]) {
        var i :| 0 <= i < |s[1..]| - 1 && IsMark(s[1..][i]) && s[1..][i + 1] == s[1..][i];
        assert s[i + 1] == s[1..][i] && s[i + 2] == s[1..][i + 1];
      }
    }
  }

  /** `hasExcessivePunctuation`: more than three `!`/`?` in all, or one of
      them twice in a row. */
  predicate HasExcessivePunctuation(text: string)
    ensures HasExcessivePunctuation(text) <==>
      (Count(text, IsMark) > 3 || exists i :: 0 <= i < |text| - 1 && IsMark(text[i]) && text[i + 1] == text[i])
  {
    RepeatedMarkAt(text);
    Count(text, IsMark) > 3 || RepeatedMark(text)
  }

  /** `isAllCaps`: at least six ASCII letters, of which more than 80% are
      upper case. The ratio test `upper / total > 0.8` is written `5 * upper > 4 * total`. */
  predicate IsAllCaps(text: string)
    ensures IsAllCaps(text) <==>
      (Count(text, IsAsciiLetter) >= 6 && (Count(text, IsUpperAscii) as real) / (Count(text, IsAsciiLetter) as real) > 0.8)
  {
    var upper := Count(text, IsUpperAscii);
    var total := Count(text, IsAsciiLetter);
    if total == 0 then false
    else
      AllCapsRatio(upper, total);
      5 * upper > 4 * total && total >= 6
  }

  predicate IsAsciiLetter(c: char) { IsUpperAscii(c) || IsLowerAscii(c) }

  /** The integer form of the ratio test is the ratio test. */
  lemma AllCapsRatio(upper: nat, total: nat)
    requires total > 0
    ensures (upper as real) / (total as real) > 0.8 <==> 5 * upper > 4 * total
  {
    var u := upper as real;
    var t := total as real;
    var q := u / t;
    assert q * t == u;
    var d := q - 0.8;
    assert u - 0.8 * t == d * t;
    if d > 0.0 {
      assert d * t > 0.0;
    } else {
      assert (0.0 - d) * t >= 0.0;
    }
  }

  /** A headline can only be all caps when it has at least one upper-case letter
      for each lower-case one times four, and at least five upper-case letters. */
  lemma AllCapsHasUpper(text: string)
    requires IsAllCaps(text)
    ensures Count(text, IsUpperAscii) >= 5
  {
  }

  /** The phrases `containsClickbait` looks for, in the order listed. */
  const ClickbaitPhrases: seq<string> := ["आप चौंक जाएंगे", "देखते रह जाएंगे", "चौंक जाएंगे",
    "देखते रह जाएंगे", "शर्मनाक"]

  /** `phrases.some((p) => text.includes(p))`. */
  predicate ContainsAny(text: string, phrases: seq<string>) {
    phrases != [] && (Contains(text, phrases[0]) || ContainsAny(text, phrases[1..]))
  }

  /** Some phrase of the list occurs in the text. */
  lemma {:induction false} ContainsAnyAt(text: string, phrases: seq<string>)
    ensures ContainsAny(text, phrases) <==> exists i :: 0 <= i < |phrases| && Contains(text, phrases[i])
  {
    if phrases != [] {
      ContainsAnyAt(text, phrases[1..]);
      if exists i :: 0 <= i < |phrases| && Contains(text, phrases[i]) {
        var i :| 0 <= i < |phrases| && Contains(text, phrases[i]);
        if i > 0 { assert phrases[1..][i - 1] == phrases[i]; }
      }
      if ContainsAny(text, phrases[1..]) {
        var i :| 0 <= i < |phrases[1..]| && Contains(text, phrases[1..][i]);
        assert phrases[i + 1] == phrases[1..][i];
      }
    }
  }

  /** `containsClickbait` on the lower-cased text. */
  predicate ContainsClickbait(text: string)
    ensures ContainsClickbait(text) <==>
      (exists i :: 0 <= i < |ClickbaitPhrases| && Contains(Lower(text), ClickbaitPhrases[i]))
  {
    ContainsAnyAt(Lower(text), ClickbaitPhrases);
    ContainsAny(Lower(text), ClickbaitPhrases)
  }

  /** Of the five listed phrases three suffice: one is listed twice and one
      contains another. */
  lemma ClickbaitEssentialPhrases(text: string)
    ensures ContainsClickbait(text) <==>
      Contains(Lower(text), "चौंक जाएंगे") || Contains(Lower(text), "देखते रह जाएंगे")
      || Contains(Lower(text), "शर्मनाक")
  {
    var t := Lower(text);
    var ps := ClickbaitPhrases;
    assert ps[0] == "आप चौंक जाएंगे" && ps[1] == ps[3] == "देखते रह जाएंगे" && ps[2] == "चौंक जाएंगे" && ps[4] == "शर्मनाक";
    if Contains(t, ps[0]) {
      assert StartsWith(ps[0][3..], ps[2]);
      ContainsTransitive(t, ps[0], ps[2]);
    }
    assert ContainsClickbait(text) <==> Contains(t, ps[0]) || Contains(t, ps[1]) || Contains(t, ps[2]) || Contains(t, ps[3]) || Contains(t, ps[4]);
  }

  datatype HeadlineError = AllCapsHeadline | ExcessivePunctuation | ClickbaitHeadline

  /** `validateHeadlines` on the title and the short headline: the all-caps
      check runs first, then punctuation, then clickbait. */
  function ValidateHeadlines(title: string, short: string): (r: Outcome<HeadlineError>)
    ensures r == Fail(AllCapsHeadline) <==> IsAllCaps(title) || IsAllCaps(short)
    ensures r == Fail(ExcessivePunctuation) <==>
      !IsAllCaps(title) && !IsAllCaps(short)
      && (HasExcessivePunctuation(title) || HasExcessivePunctuation(short))
    ensures r == Fail(ClickbaitHeadline) <==>
      !IsAllCaps(title) && !IsAllCaps(short)
      && !HasExcessivePunctuation(title) && !HasExcessivePunctuation(short)
      && (ContainsClickbait(title) || ContainsClickbait(short))
    ensures r.Pass? <==>
      !IsAllCaps(title) && !IsAllCaps(short)
      && !HasExcessivePunctuation(title) && !HasExcessivePunctuation(short)
      && !ContainsClickbait(title) && !ContainsClickbait(short)
  {
    if IsAllCaps(title) || IsAllCaps(short) then Fail(AllCapsHeadline)
    else if HasExcessivePunctuation(title) || HasExcessivePunctuation(short) then Fail(ExcessivePunctuation)
    else if ContainsClickbait(title) || ContainsClickbait(short) then Fail(ClickbaitHeadline)
    else Pass
  }
}
