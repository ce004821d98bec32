/** The editorial controller's own rules: the editorial types, the related
    articles shown with an editorial, and the type written on create and
    update. Titles, descriptions, canonical URLs and read time are in `Seo`,
    keywords in `Keywords`, the slug search in `Article` and the status in
    `Status`. */
module Editorial {
  import opened Wrappers
  import opened Text
  import opened Js

  const EditorialTypes: seq<string> := ["editorial", "opinion", "review", "interview", "special-report"]
  const DefaultEditorialType: string := "editorial"
  const MaxRelatedArticles: nat := 5

  predicate IsEditorialType(t: string) { t in EditorialTypes }

  /** The type `normalizeEditorial` reports: the stored type when it is one
      of the five, `editorial` otherwise. */
  function StoredEditorialType(entity: Value): (r: string)
    ensures IsEditorialType(r)
    ensures Truthy(Get(entity, "editorialType")) && IsEditorialType(ToStr(Get(entity, "editorialType"))) ==>
      r == ToStr(Get(entity, "editorialType"))
    ensures !(Truthy(Get(entity, "editorialType")) && IsEditorialType(ToStr(Get(entity, "editorialType")))) ==>
      r == DefaultEditorialType
  {
    var stored := Get(entity, "editorialType");
    if Truthy(stored) && IsEditorialType(ToStr(stored)) then ToStr(stored) else DefaultEditorialType
  }

  // ---------------------------------------------------------------------------
  // Related articles

  /** `filter(Boolean)`. */
  function Present(s: seq<Value>): (r: seq<Value>)
    ensures forall i :: 0 <= i < |r| ==> Truthy(r[i])
    ensures multiset(r) <= multiset(s)
    ensures forall x :: x in s && Truthy(x) ==> multiset(r)[x] == multiset(s)[x]
  {
    if s == [] then []
    else
      assert s == [s[0]] + s[1..];
      if Truthy(s[0]) then [s[0]] + Present(s[1..]) else Present(s[1..])
  }

  /** The sort key of an article: the time of its publication date, 0 when
      it has none. `time` stands for `new Date(value).getTime()`. */
  function DateKey(a: Value, time: Value -> int): int {
    if Truthy(Get(a, "publishedAt")) then time(Get(a, "publishedAt")) else 0
  }

  /** `s` ordered by decreasing key. */
  predicate Descending<T>(s: seq<T>, key: T -> int) {
    forall i, j :: 0 <= i < j < |s| ==> key(s[i]) >= key(s[j])
  }

  /** Puts `x` in front of the first element whose key is not above its own. */
  function Insert<T>(x: T, s: seq<T>, key: T -> int): (r: seq<T>)
    requires Descending(s, key)
    ensures Descending(r, key)
    ensures multiset(r) == multiset(s) + multiset{x}
    ensures forall y :: y in r ==> y in s || y == x
  {
    if s == [] then [x]
    else if key(s[0]) <= key(x) then [x] + s
    else
      var rest := Insert(x, s[1..], key);
      InsertBehindHead(x, s, rest, key);
      [s[0]] + rest
  }

  /** Putting the head of `s` in front of the insertion into its tail keeps
      the order and adds `x` to the elements. */
  lemma InsertBehindHead<T>(x: T, s: seq<T>, rest: seq<T>, key: T -> int)
    requires s != [] && Descending(s, key) && key(s[0]) > key(x) && Descending(rest, key)
    requires multiset(rest) == multiset(s[1..]) + multiset{x}
    requires forall y :: y in rest ==> y in s[1..] || y == x
    ensures Descending([s[0]] + rest, key)
    ensures multiset([s[0]] + rest) == multiset(s) + multiset{x}
    ensures forall y :: y in [s[0]] + rest ==> y in s || y == x
  {
    assert s == [s[0]] + s[1..];
    var r := [s[0]] + rest;
    forall i, j | 0 <= i < j < |r|
      ensures key(r[i]) >= key(r[j])
    {
      if i == 0 {
        assert r[0] == s[0] && r[j] == rest[j - 1];
        assert rest[j - 1] in rest;
        if r[j] != x {
          assert r[j] in s[1..];
          var k :| 0 <= k < |s[1..]| && s[1..][k] == r[j];
          assert s[k + 1] == r[j];
        }
      } else {
        assert r[i] == rest[i - 1] && r[j] == rest[j - 1];
      }
    }
  }

  /** A stable sort by decreasing key: insertion from the back keeps elements
      with the same key in their original order. */
  function SortDescending<T>(s: seq<T>, key: T -> int): (r: seq<T>)
    ensures Descending(r, key)
    ensures multiset(r) == multiset(s)
  {
    if s == [] then []
    else
      assert s == [s[0]] + s[1..];
      Insert(s[0], SortDescending(s[1..], key), key)
  }

  /** The elements of `s` whose key is `k`, in order. */
  function WithKey<T>(s: seq<T>, key: T -> int, k: int): seq<T> {
    if s == [] then []
    else (if key(s[0]) == k then [s[0]] else []) + WithKey(s[1..], key, k)
  }

  /** Inserting `x` puts it in front of every element with the same key. */
  lemma {:induction false} InsertKeyed<T>(x: T, s: seq<T>, key: T -> int, k: int)
    requires Descending(s, key)
    ensures WithKey(Insert(x, s, key), key, k) == (if key(x) == k then [x] else []) + WithKey(s, key, k)
  {
    if s == [] {
      assert [x][1..] == [];
    } else if key(s[0]) <= key(x) {
      assert ([x] + s)[1..] == s;
    } else {
      DescendingTail(s, key);
      InsertKeyed(x, s[1..], key, k);
      KeyedBehindHead(x, s, Insert(x, s[1..], key), key, k);
    }
  }

  /** The head of `s`, ranked above `x`, stays in front of it among the
      elements with key `k`. */
  lemma KeyedBehindHead<T>(x: T, s: seq<T>, rest: seq<T>, key: T -> int, k: int)
    requires s != [] && key(s[0]) > key(x)
    requires WithKey(rest, key, k) == (if key(x) == k then [x] else []) + WithKey(s[1..], key, k)
    ensures WithKey([s[0]] + rest, key, k) == (if key(x) == k then [x] else []) + WithKey(s, key, k)
  {
    var tail := WithKey(s[1..], key, k);
    assert ([s[0]] + rest)[1..] == rest;
    if key(x) == k {
      assert key(s[0]) != k;
      assert WithKey([s[0]] + rest, key, k) == WithKey(rest, key, k);
      assert WithKey(s, key, k) == tail;
    } else {
      assert WithKey(rest, key, k) == tail;
    }
  }

  /** The tail of a descending sequence is descending. */
  lemma DescendingTail<T>(s: seq<T>, key: T -> int)
    requires s != [] && Descending(s, key)
    ensures Descending(s[1..], key)
  {
    forall i, j | 0 <= i < j < |s| - 1
      ensures key(s[1..][i]) >= key(s[1..][j])
    {
      assert s[1..][i] == s[i + 1] && s[1..][j] == s[j + 1];
    }
  }

  /** The sort is stable: the elements with any one key keep their order. */
  lemma {:induction false} SortStable<T>(s: seq<T>, key: T -> int, k: int)
    ensures WithKey(SortDescending(s, key), key, k) == WithKey(s, key, k)
  {
    if s != [] {
      SortStable(s[1..], key, k);
      InsertKeyed(s[0], SortDescending(s[1..], key), key, k);
    }
  }

  /** The first `n` elements of a descending sequence are descending. */
  lemma TakeDescending<T>(s: seq<T>, n: int, key: T -> int)
    requires Descending(s, key)
    ensures Descending(Take(s, n), key)
  {
    var t := Take(s, n);
    assert forall i :: 0 <= i < |t| ==> t[i] == s[i];
  }

  /** A rearrangement of present values holds only present values. */
  lemma PermutationPresent(s: seq<Value>, r: seq<Value>)
    requires forall i :: 0 <= i < |s| ==> Truthy(s[i])
    requires multiset(r) == multiset(s)
    ensures forall i :: 0 <= i < |r| ==> Truthy(r[i])
  {
    forall i | 0 <= i < |r|
      ensures Truthy(r[i])
    {
      assert r[i] in multiset(s);
      var k :| 0 <= k < |s| && s[k] == r[i];
    }
  }

  /** The sort key as a function. */
  function NewestKey(time: Value -> int): Value -> int {
    a => DateKey(a, time)
  }

  /** `.sort((a, b) => bTime - aTime)`: the same articles, newest first,
      articles of the same time in their stored order. */
  function SortNewestFirst(s: seq<Value>, time: Value -> int): (r: seq<Value>)
    ensures NewestFirst(r, time) && multiset(r) == multiset(s)
    ensures forall k :: WithKey(r, NewestKey(time), k) == WithKey(s, NewestKey(time), k)
  {
    forall k
      ensures WithKey(SortDescending(s, NewestKey(time)), NewestKey(time), k) == WithKey(s, NewestKey(time), k)
    {
      SortStable(s, NewestKey(time), k);
    }
    SortDescending(s, NewestKey(time))
  }

  predicate NewestFirst(s: seq<Value>, time: Value -> int) {
    Descending(s, NewestKey(time))
  }

  /** The related articles of an editorial: the present ones, newest first,
      at most five. */
  function RelatedArticles(entity: Value, time: Value -> int): (r: seq<Value>)
    ensures |r| <= MaxRelatedArticles
    ensures forall i :: 0 <= i < |r| ==> Truthy(r[i])
    ensures NewestFirst(r, time)
  {
    var articles := Get(entity, "articles");
    if articles.Arr? then
      var present := Present(articles.items);
      var sorted := SortNewestFirst(present, time);
      TakeDescending(sorted, MaxRelatedArticles, NewestKey(time));
      PermutationPresent(present, sorted);
      Take(sorted, MaxRelatedArticles)
    else []
  }

  /** The first `n` elements of a descending sequence are its top elements:
      nothing left out has a higher key than anything kept. */
  lemma TakeIsTop<T>(s: seq<T>, n: int, key: T -> int)
    requires Descending(s, key)
    ensures forall x, i :: x in multiset(s) - multiset(Take(s, n)) && 0 <= i < |Take(s, n)| ==>
      key(x) <= key(Take(s, n)[i])
  {
    var shown := Take(s, n);
    var rest := s[|shown|..];
    assert s == shown + rest;
    assert multiset(s) == multiset(shown) + multiset(rest);
    forall x, i | x in multiset(s) - multiset(shown) && 0 <= i < |shown|
      ensures key(x) <= key(shown[i])
    {
      assert x in multiset(rest);
      var k :| 0 <= k < |rest| && rest[k] == x;
      assert s[|shown| + k] == x && s[i] == shown[i];
    }
  }

  /** The related articles are the newest: every present article left out
      is no newer than any shown, the shown ones are present articles, and
      five or fewer present articles are all shown. */
  lemma RelatedAreNewest(entity: Value, time: Value -> int)
    requires Get(entity, "articles").Arr?
    ensures var shown := RelatedArticles(entity, time);
      var present := Present(Get(entity, "articles").items);
      (forall x, i :: x in multiset(present) - multiset(shown) && 0 <= i < |shown| ==>
         DateKey(x, time) <= DateKey(shown[i], time))
      && multiset(shown) <= multiset(present)
      && (|present| <= MaxRelatedArticles ==> multiset(shown) == multiset(present))
  {
    var present := Present(Get(entity, "articles").items);
    assert RelatedArticles(entity, time) == Take(SortNewestFirst(present, time), MaxRelatedArticles);
    TopOfSorted(present, time);
  }

  /** The first five of a list sorted newest first are its newest. */
  lemma TopOfSorted(present: seq<Value>, time: Value -> int)
    ensures var shown := Take(SortNewestFirst(present, time), MaxRelatedArticles);
      (forall x, i :: x in multiset(present) - multiset(shown) && 0 <= i < |shown| ==>
         DateKey(x, time) <= DateKey(shown[i], time))
      && multiset(shown) <= multiset(present)
      && (|present| <= MaxRelatedArticles ==> multiset(shown) == multiset(present))
  {
    var sorted := SortNewestFirst(present, time);
    var shown := Take(sorted, MaxRelatedArticles);
    TakeIsTop(sorted, MaxRelatedArticles, NewestKey(time));
    TakeSubMultiset(sorted, MaxRelatedArticles);
    assert |sorted| == |present| by {
      assert |multiset(sorted)| == |multiset(present)|;
    }
  }

  /** The first `n` elements are some of the elements, and all of them when
      there are at most `n`. */
  lemma TakeSubMultiset<T>(s: seq<T>, n: int)
    ensures multiset(Take(s, n)) <= multiset(s)
    ensures |s| <= n ==> Take(s, n) == s
  {
    var t := Take(s, n);
    assert s == t + s[|t|..];
    assert multiset(s) == multiset(t) + multiset(s[|t|..]);
  }

  // ---------------------------------------------------------------------------
  // editorialType in buildEditorialData

  /** The requested type, when it is one of the five. */
  function RequestedType(input: Value): (r: Option<string>)
    ensures r.Some? ==> IsEditorialType(r.value)
    ensures r.Some? ==> Has(input, "editorialType")
  {
    match ParseString(Get(input, "editorialType"))
    case Some(t) => if IsEditorialType(t) then Some(t) else None
    case None => None
  }

  /** The `editorialType` step of `buildEditorialData`: a valid requested type
      is written; otherwise a create writes `editorial` and an update leaves
      the stored type alone. */
  method ApplyEditorialType(data: Record, input: Value, isPartial: bool) returns (out: Record)
    ensures RequestedType(input).Some? ==> out == data["editorialType" := Str(RequestedType(input).value)]
    ensures RequestedType(input).None? && !isPartial ==> out == data["editorialType" := Str(DefaultEditorialType)]
    ensures RequestedType(input).None? && isPartial ==> out == data
    ensures !isPartial ==> "editorialType" in out && out["editorialType"].Str? && IsEditorialType(out["editorialType"].s)
  {
    out := data;
    if !isPartial || Has(input, "editorialType") {
      var et := ParseString(Get(input, "editorialType"));
      if et.Some? && IsEditorialType(et.value) {
        out := out["editorialType" := Str(et.value)];
      } else if !isPartial {
        out := out["editorialType" := Str(DefaultEditorialType)];
      }
    }
  }
}
