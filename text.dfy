/** String operations of the JavaScript runtime that the CMS code relies on:
    white space and trimming, ASCII case mapping, searching, run replacement,
    splitting and joining, ordering and number printing. Strings are sequences
    of code points; every literal the CMS uses lies in the Basic Multilingual
    Plane, where a code point is one UTF-16 code unit. */
module Text {

  /** The characters matched by `\s` and removed by `String.prototype.trim`
      (ECMAScript WhiteSpace and LineTerminator). */
  predicate IsSpace(c: char) {
    c == ' ' || c == '\t' || c == '\n' || c == '\r' || c == '\U{000B}' || c == '\U{000C}'
    || c == '\U{00A0}' || c == '\U{1680}' || ('\U{2000}' <= c <= '\U{200A}')
    || c == '\U{2028}' || c == '\U{2029}' || c == '\U{202F}' || c == '\U{205F}'
    || c == '\U{3000}' || c == '\U{FEFF}'
  }

  predicate NoSpaceAtEdges(s: string) {
    s == [] || (!IsSpace(s[0]) && !IsSpace(s[|s| - 1]))
  }

  /** `trimStart`: drops exactly the leading white space. */
  function TrimStart(s: string): (r: string)
    ensures |r| <= |s| && r == s[|s| - |r|..]
    ensures r == [] || !IsSpace(r[0])
    ensures forall i :: 0 <= i < |s| - |r| ==> IsSpace(s[i])
  {
    if s != [] && IsSpace(s[0]) then TrimStart(s[1..]) else s
  }

  /** `trimEnd`: drops exactly the trailing white space. */
  function TrimEnd(s: string): (r: string)
    ensures |r| <= |s| && r == s[..|r|]
    ensures r == [] || !IsSpace(r[|r| - 1])
    ensures forall i :: |r| <= i < |s| ==> IsSpace(s[i])
  {
    if s != [] && IsSpace(s[|s| - 1]) then TrimEnd(s[..|s| - 1]) else s
  }

  /** `trim`. */
  function Trim(s: string): (r: string)
    ensures |r| <= |s|
    ensures NoSpaceAtEdges(r)
  {
    var t := TrimStart(s);
    var r := TrimEnd(t);
    assert r != [] ==> r[0] == t[0];
    r
  }

  lemma TrimStartIdentity(s: string)
    requires s == [] || !IsSpace(s[0])
    ensures TrimStart(s) == s
  {
  }

  lemma TrimEndIdentity(s: string)
    requires s == [] || !IsSpace(s[|s| - 1])
    ensures TrimEnd(s) == s
  {
  }

  /** A string without white space at either end is its own trim; in
      particular `trim` is idempotent. */
  lemma TrimIdentity(s: string)
    requires NoSpaceAtEdges(s)
    ensures Trim(s) == s
  {
    TrimStartIdentity(s);
    TrimEndIdentity(s);
  }

  lemma TrimIdempotent(s: string)
    ensures Trim(Trim(s)) == Trim(s)
  {
    TrimIdentity(Trim(s));
  }

  /** A string of white space only trims to the empty string, and only such a string does. */
  lemma {:induction false} TrimEmpty(s: string)
    ensures Trim(s) == [] <==> forall i :: 0 <= i < |s| ==> IsSpace(s[i])
  {
    var t := TrimStart(s);
    if t != [] {
      assert !IsSpace(t[0]);
      assert s[|s| - |t|] == t[0];
    }
  }

  predicate IsUpperAscii(c: char) { 'A' <= c <= 'Z' }
  predicate IsLowerAscii(c: char) { 'a' <= c <= 'z' }
  predicate IsDigit(c: char) { '0' <= c <= '9' }

  /** `toLowerCase`, restricted to the ASCII letters. */
  function LowerChar(c: char): (r: char)
    ensures IsUpperAscii(c) ==> IsLowerAscii(r)
    ensures !IsUpperAscii(c) ==> r == c
  {
    if IsUpperAscii(c) then (c as int + 32) as char else c
  }

  function Lower(s: string): (r: string)
    ensures |r| == |s|
    ensures forall i :: 0 <= i < |s| ==> r[i] == LowerChar(s[i])
  {
    if s == [] then [] else [LowerChar(s[0])] + Lower(s[1..])
  }

  /** Lower-casing leaves no upper-case letter and keeps the white space at the edges. */
  lemma LowerEdges(s: string)
    ensures forall i :: 0 <= i < |Lower(s)| ==> !IsUpperAscii(Lower(s)[i])
    ensures NoSpaceAtEdges(s) ==> NoSpaceAtEdges(Lower(s))
  {
    var r := Lower(s);
    if s != [] {
      assert r[0] == LowerChar(s[0]) && r[|r| - 1] == LowerChar(s[|s| - 1]);
    }
  }

  lemma LowerIdentity(s: string)
    requires forall i :: 0 <= i < |s| ==> !IsUpperAscii(s[i])
    ensures Lower(s) == s
  {
  }

  /** The lower-cased text starts with `p` exactly when its first `|p|`
      characters, lower-cased, are `p`. */
  lemma {:induction false} StartsWithLower(s: string, p: string)
    ensures StartsWith(Lower(s), p) <==> |p| <= |s| && Lower(s[..|p|]) == p
  {
    var low := Lower(s);
    if |p| <= |s| {
      var a := low[..|p|];
      var b := Lower(s[..|p|]);
      forall i | 0 <= i < |p|
        ensures a[i] == b[i]
      {
      }
      assert a == b;
      assert p <= low <==> a == p;
    } else {
      assert |low| < |p|;
    }
  }

  /** `s.startsWith(p)`. */
  predicate StartsWith(s: string, p: string) { p <= s }

  /** `s.endsWith(p)`. */
  predicate EndsWith(s: string, p: string) { |p| <= |s| && s[|s| - |p|..] == p }

  /** `s.includes(p)`. */
  predicate Contains(s: string, p: string) {
    exists i :: 0 <= i <= |s| && StartsWith(s[i..], p)
  }

  /** A string contains every part of a string it contains. */
  lemma ContainsTransitive(s: string, q: string, p: string)
    requires Contains(s, q) && Contains(q, p)
    ensures Contains(s, p)
  {
    var i :| 0 <= i <= |s| && StartsWith(s[i..], q);
    var j :| 0 <= j <= |q| && StartsWith(q[j..], p);
    assert q == s[i..i + |q|];
    assert p == q[j..j + |p|];
    assert q[j..j + |p|] == s[i + j..i + j + |p|];
    assert StartsWith(s[i + j..], p);
  }

  /** The number of characters of `s` satisfying `p`. */
  function Count(s: string, p: char -> bool): (n: nat)
    ensures n <= |s|
  {
    if s == [] then 0 else (if p(s[0]) then 1 else 0) + Count(s[1..], p)
  }

  lemma {:induction false} CountAppend(s: string, t: string, p: char -> bool)
    ensures Count(s + t, p) == Count(s, p) + Count(t, p)
  {
    if s != [] {
      assert (s + t)[0] == s[0] && (s + t)[1..] == s[1..] + t;
      CountAppend(s[1..], t, p);
      assert Count(s + t, p) == (if p(s[0]) then 1 else 0) + Count(s[1..] + t, p);
    } else {
      assert s + t == t;
    }
  }

  /** `s.replace(/P+/g, rep)`: every maximal run of characters satisfying `p`
      becomes the single character `rep`. The last character of a run emits
      `rep`; the others are dropped. */
  function ReplaceRuns(s: string, p: char -> bool, rep: char): (r: string)
    ensures |r| <= |s|
  {
    if s == [] then []
    else if p(s[0]) && |s| > 1 && p(s[1]) then ReplaceRuns(s[1..], p, rep)
    else [if p(s[0]) then rep else s[0]] + ReplaceRuns(s[1..], p, rep)
  }

  /** The first character of a run replacement. */
  lemma ReplaceRunsHead(s: string, p: char -> bool, rep: char)
    requires s != []
    ensures ReplaceRuns(s, p, rep) != []
    ensures ReplaceRuns(s, p, rep)[0] == if p(s[0]) then rep else s[0]
    decreases |s|
  {
    if p(s[0]) && |s| > 1 && p(s[1]) {
      ReplaceRunsHead(s[1..], p, rep);
    }
  }

  /** Characters that survive a run replacement keep a property the replacement character has. */
  lemma {:induction false} ReplaceRunsChars(s: string, p: char -> bool, rep: char, q: char -> bool)
    requires forall i :: 0 <= i < |s| ==> p(s[i]) || q(s[i])
    requires q(rep)
    ensures forall i :: 0 <= i < |ReplaceRuns(s, p, rep)| ==> q(ReplaceRuns(s, p, rep)[i])
  {
    if s != [] {
      ReplaceRunsChars(s[1..], p, rep, q);
    }
  }

  /** After a run replacement no two neighbours both satisfy the run predicate. */
  lemma {:induction false} ReplaceRunsNoAdjacent(s: string, p: char -> bool, rep: char)
    ensures forall i :: 0 <= i < |ReplaceRuns(s, p, rep)| - 1 ==>
      !(p(ReplaceRuns(s, p, rep)[i]) && p(ReplaceRuns(s, p, rep)[i + 1]))
  {
    if s != [] {
      ReplaceRunsNoAdjacent(s[1..], p, rep);
      if !(p(s[0]) && |s| > 1 && p(s[1])) && |s| > 1 {
        ReplaceRunsHead(s[1..], p, rep);
        var r := ReplaceRuns(s, p, rep);
        var t := ReplaceRuns(s[1..], p, rep);
        assert r == [if p(s[0]) then rep else s[0]] + t;
        forall i | 0 <= i < |r| - 1
          ensures !(p(r[i]) && p(r[i + 1]))
        {
          if i > 0 { assert r[i] == t[i - 1] && r[i + 1] == t[i]; }
        }
      }
    }
  }

  /** A run replacement leaves alone a string whose runs are already single replacement characters. */
  lemma {:induction false} ReplaceRunsIdentity(s: string, p: char -> bool, rep: char)
    requires forall i :: 0 <= i < |s| ==> p(s[i]) ==> s[i] == rep
    requires forall i :: 0 <= i < |s| - 1 ==> !(p(s[i]) && p(s[i + 1]))
    ensures ReplaceRuns(s, p, rep) == s
  {
    if s != [] {
      ReplaceRunsIdentity(s[1..], p, rep);
      assert s == [s[0]] + s[1..];
    }
  }

  /** `s.split(sep)` for a one-character separator. */
  function Split(s: string, sep: char): (r: seq<string>)
    ensures |r| >= 1
    ensures forall k, i :: 0 <= k < |r| && 0 <= i < |r[k]| ==> r[k][i] != sep
  {
    if s == [] then [[]]
    else if s[0] == sep then [[]] + Split(s[1..], sep)
    else
      var rest := Split(s[1..], sep);
      [[s[0]] + rest[0]] + rest[1..]
  }

  /** `list.slice(0, n)`: the first `n` elements, or all of them. */
  function Take<T>(s: seq<T>, n: int): (r: seq<T>)
    ensures |r| <= |s| && r <= s
    ensures n >= 0 ==> |r| <= n
    ensures |r| == if n <= 0 then 0 else if n < |s| then n else |s|
  {
    if n <= 0 then [] else if n < |s| then s[..n] else s
  }

  /** `parts.join(sep)`. */
  function Join(parts: seq<string>, sep: string): string {
    if parts == [] then []
    else if |parts| == 1 then parts[0]
    else parts[0] + sep + Join(parts[1..], sep)
  }

  /** Joining the pieces of a split with the separator gives the string back. */
  lemma {:induction false} JoinSplit(s: string, sep: char)
    ensures Join(Split(s, sep), [sep]) == s
  {
    if s != [] {
      JoinSplit(s[1..], sep);
      var rest := Split(s[1..], sep);
      if s[0] != sep {
        if |rest| == 1 {
          assert Join(Split(s, sep), [sep]) == [s[0]] + rest[0];
        } else {
          var parts := Split(s, sep);
          assert parts[1..] == rest[1..];
          assert Join(rest, [sep]) == rest[0] + [sep] + Join(rest[1..], [sep]);
          assert Join(parts, [sep]) == [s[0]] + rest[0] + [sep] + Join(rest[1..], [sep]);
        }
      } else {
        assert Split(s, sep)[1..] == rest;
      }
    }
  }

  /** `w` does not hold the separator `sep`. */
  predicate Free(w: string, sep: char) {
    forall i :: 0 <= i < |w| ==> w[i] != sep
  }

  /** Splitting a piece without the separator followed by more text puts
      the piece in front of the first part. */
  lemma {:induction false} SplitPrefix(w: string, rest: string, sep: char)
    requires Free(w, sep)
    ensures Split(w + rest, sep) == [w + Split(rest, sep)[0]] + Split(rest, sep)[1..]
  {
    var parts := Split(rest, sep);
    if w == [] {
      assert w + rest == rest && w + parts[0] == parts[0];
      assert parts == [parts[0]] + parts[1..];
    } else {
      SplitPrefix(w[1..], rest, sep);
      var tail := Split(w[1..] + rest, sep);
      assert (w + rest)[0] == w[0] && (w + rest)[1..] == w[1..] + rest;
      assert tail[0] == w[1..] + parts[0] && tail[1..] == parts[1..];
      assert Split(w + rest, sep) == [[w[0]] + tail[0]] + tail[1..];
      assert [w[0]] + (w[1..] + parts[0]) == w + parts[0];
    }
  }

  /** A separator in front splits off an empty part. */
  lemma SplitSeparator(rest: string, sep: char)
    ensures Split([sep] + rest, sep) == [[]] + Split(rest, sep)
  {
    assert ([sep] + rest)[0] == sep && ([sep] + rest)[1..] == rest;
  }

  /** Splitting pieces joined with a separator they do not hold gives the
      pieces back. */
  lemma {:induction false} SplitJoin(parts: seq<string>, sep: char)
    requires |parts| >= 1
    requires forall k :: 0 <= k < |parts| ==> Free(parts[k], sep)
    ensures Split(Join(parts, [sep]), sep) == parts
  {
    if |parts| == 1 {
      SplitPrefix(parts[0], [], sep);
      assert parts[0] + [] == parts[0];
    } else {
      var rest := Join(parts[1..], [sep]);
      SplitJoin(parts[1..], sep);
      SplitSeparator(rest, sep);
      SplitPrefix(parts[0], [sep] + rest, sep);
      assert Join(parts, [sep]) == parts[0] + ([sep] + rest);
      assert parts[0] + [] == parts[0];
      assert parts == [parts[0]] + parts[1..];
    }
  }

  /** JavaScript's `<` on strings: lexicographic order on code points. */
  predicate LexLess(a: string, b: string)
    decreases |a|
  {
    if a == [] then b != []
    else if b == [] then false
    else if a[0] != b[0] then a[0] < b[0]
    else LexLess(a[1..], b[1..])
  }

  /** `<=` on strings. */
  predicate LexLessEq(a: string, b: string) { a == b || LexLess(a, b) }

  lemma {:induction false} LexLessIrreflexive(a: string)
    ensures !LexLess(a, a)
  {
    if a != [] { LexLessIrreflexive(a[1..]); }
  }

  lemma {:induction false} LexLessTransitive(a: string, b: string, c: string)
    requires LexLess(a, b) && LexLess(b, c)
    ensures LexLess(a, c)
    decreases |a|
  {
    if a != [] && b != [] && c != [] && a[0] == b[0] && b[0] == c[0] {
      LexLessTransitive(a[1..], b[1..], c[1..]);
    }
  }

  lemma {:induction false} LexLessTotal(a: string, b: string)
    ensures a == b || LexLess(a, b) || LexLess(b, a)
    decreases |a|
  {
    if a != [] && b != [] && a[0] == b[0] {
      LexLessTotal(a[1..], b[1..]);
      if a[1..] == b[1..] {
        assert a == [a[0]] + a[1..] && b == [b[0]] + b[1..];
      }
    }
  }

  lemma LexLessAsymmetric(a: string, b: string)
    requires LexLess(a, b)
    ensures !LexLess(b, a)
  {
    if LexLess(b, a) {
      LexLessTransitive(a, b, a);
      LexLessIrreflexive(a);
    }
  }

  function DigitChar(d: nat): char
    requires d < 10
  {
    ('0' as int + d) as char
  }

  /** `String(n)` for a natural number: its decimal digits, no leading zero. */
  function NatToString(n: nat): (r: string)
    ensures r != []
    ensures forall i :: 0 <= i < |r| ==> IsDigit(r[i])
    ensures |r| > 1 ==> r[0] != '0'
  {
    if n < 10 then [DigitChar(n)] else NatToString(n / 10) + [DigitChar(n % 10)]
  }

  /** `String(n)` for an integer. */
  function IntToString(n: int): (r: string)
    ensures r != [] && !IsSpace(r[0]) && !IsSpace(r[|r| - 1])
  {
    if n < 0 then "-" + NatToString(-n) else NatToString(n)
  }

  function DigitValue(c: char): nat
    requires IsDigit(c)
  {
    c as int - '0' as int
  }

  /** The value of a string of decimal digits. */
  function DigitsValue(s: string): nat
    requires forall i :: 0 <= i < |s| ==> IsDigit(s[i])
  {
    if s == [] then 0 else DigitsValue(s[..|s| - 1]) * 10 + DigitValue(s[|s| - 1])
  }

  /** Printing a number and reading its digits back gives the number. */
  lemma {:induction false} NatToStringRoundTrip(n: nat)
    ensures DigitsValue(NatToString(n)) == n
  {
    if n >= 10 {
      var r := NatToString(n);
      NatToStringRoundTrip(n / 10);
      assert r[..|r| - 1] == NatToString(n / 10);
    }
  }
}
