/** The paged scans of the maintenance scripts over the articles table. A
    query returns the positions of the matching rows from an offset, at
    most a page of them, in the table's order (which stands for the
    query's sort order). A script visits each row of a page, may write the
    row back and counts it; it stops on an empty or short page and
    otherwise advances the offset by the page's length. */
module Paging {
  import opened Wrappers
  import opened Js

  /** `PAGE_SIZE` of every script. */
  const PageSize: nat := 500

  /** `publicationState: 'live'`: the article has a `publishedAt`. */
  predicate Live(row: Value) { !Nullish(Get(row, "publishedAt")) }

  // ---------------------------------------------------------------------------
  // The query

  /** The positions of the rows that match, in table order. */
  function Matching(rows: seq<Value>, f: Value -> bool): (r: seq<nat>)
    ensures |r| <= |rows|
  {
    if rows == [] then []
    else Matching(rows[..|rows| - 1], f) + (if f(rows[|rows| - 1]) then [|rows| - 1] else [])
  }

  /** The matching positions are exactly the positions of the matching
      rows, in increasing order. */
  lemma {:induction false} MatchingFacts(rows: seq<Value>, f: Value -> bool)
    ensures forall j :: 0 <= j < |Matching(rows, f)| ==>
      j <= Matching(rows, f)[j] < |rows| && f(rows[Matching(rows, f)[j]])
    ensures forall i :: 0 <= i < |rows| && f(rows[i]) ==> i in Matching(rows, f)
    ensures Increasing(Matching(rows, f))
  {
    if rows != [] {
      var n := |rows| - 1;
      MatchingFacts(rows[..n], f);
      assert forall i :: 0 <= i < n ==> rows[..n][i] == rows[i];
    }
  }

  /** A position is a matching one exactly when its row matches. */
  lemma MatchingMembers(rows: seq<Value>, f: Value -> bool, x: nat)
    ensures x in Matching(rows, f) <==> x < |rows| && f(rows[x])
  {
    MatchingFacts(rows, f);
  }

  /** When every row matches, every position does. */
  lemma {:induction false} AllMatching(rows: seq<Value>, f: Value -> bool)
    requires forall i :: 0 <= i < |rows| ==> f(rows[i])
    ensures |Matching(rows, f)| == |rows|
    ensures forall j :: 0 <= j < |rows| ==> Matching(rows, f)[j] == j
  {
    if rows != [] {
      var n := |rows| - 1;
      assert forall i :: 0 <= i < n ==> rows[..n][i] == rows[i];
      AllMatching(rows[..n], f);
    }
  }

  /** Two filters that agree on every row match the same positions. */
  lemma {:induction false} SameMatching(rows: seq<Value>, f: Value -> bool, g: Value -> bool)
    requires forall i :: 0 <= i < |rows| ==> f(rows[i]) == g(rows[i])
    ensures Matching(rows, f) == Matching(rows, g)
  {
    if rows != [] {
      var n := |rows| - 1;
      assert forall i :: 0 <= i < n ==> rows[..n][i] == rows[i];
      SameMatching(rows[..n], f, g);
    }
  }

  /** `findMany({ ..., offset: start, limit })`: the matching rows from
      `start` on, at most `limit` of them. */
  function Page(rows: seq<Value>, f: Value -> bool, start: nat, limit: nat): (r: seq<nat>)
    ensures |r| <= limit
    ensures r != [] ==> start + |r| <= |rows|
  {
    var m := Matching(rows, f);
    if start >= |m| then [] else m[start..Min(start + limit, |m|)]
  }

  /** A page is the slice of the matching positions from `start`, empty
      past their end. */
  lemma PageIsSlice(rows: seq<Value>, f: Value -> bool, start: nat, limit: nat)
    ensures var m := Matching(rows, f);
      Page(rows, f, start, limit) == if start >= |m| then [] else m[start..Min(start + limit, |m|)]
  {
  }

  /** A page lists positions of the table, in increasing order. */
  lemma PageWithin(rows: seq<Value>, f: Value -> bool, start: nat, limit: nat)
    ensures forall j :: 0 <= j < |Page(rows, f, start, limit)| ==> Page(rows, f, start, limit)[j] < |rows|
    ensures Increasing(Page(rows, f, start, limit))
  {
    MatchingFacts(rows, f);
    PageIsSlice(rows, f, start, limit);
  }

  /** A query as a script issues it: the table and the offset give a page
      of positions. */
  type QueryFn = (seq<Value>, nat) -> seq<nat>

  /** A query lists positions of the table, and a page found at offset `s`
      has at least `s` rows before it. */
  ghost predicate IsQuery(q: QueryFn) {
    (forall rows: seq<Value>, s: nat :: q(rows, s) != [] ==> s + |q(rows, s)| <= |rows|)
    && (forall rows: seq<Value>, s: nat, j :: 0 <= j < |q(rows, s)| ==> q(rows, s)[j] < |rows|)
  }

  /** The queries the scripts can issue. */
  type Query = q: QueryFn | IsQuery(q) witness (rows: seq<Value>, s: nat) => []

  /** The query of the scripts: `Page` with a fixed filter and limit. */
  ghost predicate IsPageQuery(q: QueryFn, f: Value -> bool, limit: nat) {
    forall rows: seq<Value>, s: nat {:trigger Page(rows, f, s, limit)} :: q(rows, s) == Page(rows, f, s, limit)
  }

  /** Paging a filter is a query. */
  lemma PageQueryIsQuery(q: QueryFn, f: Value -> bool, limit: nat)
    requires IsPageQuery(q, f, limit)
    ensures IsQuery(q)
  {
    forall rows: seq<Value>, s: nat
      ensures q(rows, s) == Page(rows, f, s, limit)
      ensures forall j :: 0 <= j < |q(rows, s)| ==> q(rows, s)[j] < |rows|
    {
      PageWithin(rows, f, s, limit);
    }
  }

  /** The query `findMany` answers for a filter and a page size. */
  function PageQuery(f: Value -> bool, limit: nat): (q: Query)
    ensures IsPageQuery(q, f, limit)
  {
    var q: QueryFn := (rows: seq<Value>, s: nat) => Page(rows, f, s, limit);
    PageQueryIsQuery(q, f, limit);
    q
  }

  // ---------------------------------------------------------------------------
  // Visits

  /** What a script does with one row it visits: the row it writes back,
      if any, and whether the row counts towards its `updated` total. */
  datatype Visit = Visit(write: Option<Value>, counted: bool)

  /** The table and a script's two counters. */
  datatype Tally = Tally(rows: seq<Value>, scanned: nat, updated: nat)

  /** `update({ where: { id }, data: { k: v } })` on a row: the one
      property written over. */
  function WithField(row: Value, k: string, v: Value): (r: Value)
    ensures row.Obj? ==> r.Obj? && r.props == row.props[k := v]
    ensures !row.Obj? ==> r == row
  {
    if row.Obj? then Obj(row.props[k := v]) else row
  }

  /** One row visited: written back when the script writes it, scanned,
      and counted when the script counts it. (A position past the table
      leaves the rows alone; no page holds one.) */
  function VisitRow(t: Tally, i: nat, u: Value -> Visit): (r: Tally)
    ensures |r.rows| == |t.rows|
    ensures i < |t.rows| ==>
      r.rows == if u(t.rows[i]).write.Some? then t.rows[i := u(t.rows[i]).write.value] else t.rows
    ensures r.scanned == t.scanned + 1
    ensures i < |t.rows| ==> r.updated == t.updated + if u(t.rows[i]).counted then 1 else 0
  {
    if i >= |t.rows| then Tally(t.rows, t.scanned + 1, t.updated)
    else
      var v := u(t.rows[i]);
      Tally(if v.write.Some? then t.rows[i := v.write.value] else t.rows, t.scanned + 1,
        t.updated + if v.counted then 1 else 0)
  }

  /** The rows of a page visited in order. */
  function VisitAll(t: Tally, page: seq<nat>, u: Value -> Visit): (r: Tally)
    ensures |r.rows| == |t.rows|
    ensures r.scanned == t.scanned + |page|
    ensures r.updated <= t.updated + |page|
  {
    if page == [] then t
    else VisitRow(VisitAll(t, page[..|page| - 1], u), page[|page| - 1], u)
  }

  // ---------------------------------------------------------------------------
  // Page visits

  /** What visiting a page does to the table and the counters. The loops
      below take it as a parameter; the scripts' one is `EachRow(u)`. */
  type VisitFn = (Tally, seq<nat>) -> Tally

  /** A page visit keeps the table's length, does nothing on an empty page
      and changes no row outside the page. */
  ghost predicate IsVisit(v: VisitFn) {
    (forall t: Tally, p: seq<nat> :: |v(t, p).rows| == |t.rows|)
    && (forall t: Tally {:trigger v(t, [])} :: v(t, []) == t)
    && (forall t: Tally, p: seq<nat>, i {:trigger v(t, p).rows[i]} ::
          0 <= i < |t.rows| && i !in p ==> v(t, p).rows[i] == t.rows[i])
  }

  /** The page visits a loop can make. */
  type PageVisit = v: VisitFn | IsVisit(v) witness (t: Tally, p: seq<nat>) => t

  /** Visiting two pages one after the other is visiting their
      concatenation. */
  ghost predicate Composes(v: VisitFn) {
    forall t: Tally, a: seq<nat>, b: seq<nat> {:trigger v(t, a + b)} :: v(v(t, a), b) == v(t, a + b)
  }

  /** A page visit is the scripts' one for the row visit `u`. */
  ghost predicate VisitsEachRow(v: VisitFn, u: Value -> Visit) {
    forall t: Tally, p: seq<nat> {:trigger VisitAll(t, p, u)} :: v(t, p) == VisitAll(t, p, u)
  }

  /** The scripts' page visit: each row of the page visited in order. */
  function EachRow(u: Value -> Visit): (v: PageVisit)
    ensures VisitsEachRow(v, u) && Composes(v)
  {
    var v: VisitFn := (t: Tally, p: seq<nat>) => VisitAll(t, p, u);
    PageVisitFacts(v, u);
    v
  }

  /** `VisitAll` keeps the length, does nothing on an empty page, changes
      only the page's rows and composes. */
  lemma PageVisitFacts(v: VisitFn, u: Value -> Visit)
    requires forall t: Tally, p: seq<nat> :: v(t, p) == VisitAll(t, p, u)
    ensures IsVisit(v) && Composes(v)
  {
    forall t: Tally, p: seq<nat>
      ensures forall i :: 0 <= i < |t.rows| && i !in p ==> v(t, p).rows[i] == t.rows[i]
    {
      VisitAllOutside(t, p, u);
    }
    forall t: Tally, a: seq<nat>, b: seq<nat>
      ensures v(v(t, a), b) == v(t, a + b)
    {
      VisitAllAppend(t, a, b, u);
    }
  }

  // ---------------------------------------------------------------------------
  // The loop as written

  /** The loop as the scripts write it: query a page at `start`; stop on
      an empty page; visit its rows; stop on a short page; otherwise
      advance `start` by the page's length. */
  function Run(t: Tally, q: Query, v: PageVisit, pageSize: nat, start: nat): (r: Tally)
    ensures |r.rows| == |t.rows|
    decreases |t.rows| - start
  {
    var page := q(t.rows, start);
    if page == [] then t
    else
      var next := v(t, page);
      if |page| < pageSize then next else Run(next, q, v, pageSize, start + |page|)
  }

  /** An empty page ends the loop with nothing visited. */
  lemma RunEmptyPage(t: Tally, q: Query, v: PageVisit, pageSize: nat, start: nat)
    requires q(t.rows, start) == []
    ensures Run(t, q, v, pageSize, start) == t
  {
  }

  /** A short page is the loop's last: the loop ends once its rows are
      visited. */
  lemma RunShortPage(t: Tally, next: Tally, q: Query, v: PageVisit, pageSize: nat, start: nat)
    requires q(t.rows, start) != [] && |q(t.rows, start)| < pageSize && next == v(t, q(t.rows, start))
    ensures Run(t, q, v, pageSize, start) == next
  {
  }

  /** A full page is visited and the loop goes on from the offset just
      past it. */
  lemma RunFullPage(t: Tally, page: seq<nat>, next: Tally, q: Query, v: PageVisit, pageSize: nat, start: nat,
      start': nat)
    requires page == q(t.rows, start) && page != [] && |page| >= pageSize && next == v(t, page)
    requires start' == start + |page|
    ensures start' <= |t.rows|
    ensures Run(t, q, v, pageSize, start) == Run(next, q, v, pageSize, start')
  {
  }

  /** The articles table a script works on. */
  class ArticleTable {
    var rows: seq<Value>

    constructor(rows: seq<Value>)
      ensures this.rows == rows
    {
      this.rows := rows;
    }

    /** `update({ where: { id }, data })` of the row at position `i`. */
    method Update(i: nat, row: Value)
      requires i < |rows|
      modifies this
      ensures rows == old(rows)[i := row]
    {
      rows := rows[i := row];
    }
  }

  /** The paged loop of a script, on the table: it ends in the state the
      loop's definition gives and returns the two counters. */
  method PagedUpdate(table: ArticleTable, q: Query, u: Value -> Visit, ghost v: PageVisit, pageSize: nat)
    returns (scanned: nat, updated: nat)
    requires VisitsEachRow(v, u)
    modifies table
    ensures Tally(table.rows, scanned, updated) == Run(Tally(old(table.rows), 0, 0), q, v, pageSize, 0)
  {
    var start: nat := 0;
    scanned, updated := 0, 0;
    ghost var goal := Run(Tally(table.rows, 0, 0), q, v, pageSize, 0);
    while true
      invariant Run(Tally(table.rows, scanned, updated), q, v, pageSize, start) == goal
      decreases |table.rows| - start
    {
      ghost var before := Tally(table.rows, scanned, updated);
      var page := q(table.rows, start);
      if page == [] {
        RunEmptyPage(before, q, v, pageSize, start);
        break;
      }
      scanned, updated := VisitPage(table, page, u, scanned, updated);
      if |page| < pageSize {
        RunShortPage(before, Tally(table.rows, scanned, updated), q, v, pageSize, start);
        break;
      }
      var start' := start + |page|;
      RunFullPage(before, page, Tally(table.rows, scanned, updated), q, v, pageSize, start, start');
      start := start';
    }
  }

  /** `for (const row of batch)`: each row of the page visited in order. */
  method VisitPage(table: ArticleTable, page: seq<nat>, u: Value -> Visit, scanned: nat, updated: nat)
    returns (scanned': nat, updated': nat)
    requires forall j :: 0 <= j < |page| ==> page[j] < |table.rows|
    modifies table
    ensures Tally(table.rows, scanned', updated') == VisitAll(Tally(old(table.rows), scanned, updated), page, u)
  {
    scanned', updated' := scanned, updated;
    ghost var t0 := Tally(table.rows, scanned, updated);
    for k := 0 to |page|
      invariant |table.rows| == |t0.rows|
      invariant Tally(table.rows, scanned', updated') == VisitAll(t0, page[..k], u)
    {
      assert page[..k + 1][..k] == page[..k];
      var i := page[k];
      var v := u(table.rows[i]);
      if v.write.Some? {
        table.Update(i, v.write.value);
      }
      scanned' := scanned' + 1;
      if v.counted {
        updated' := updated' + 1;
      }
    }
    assert page[..|page|] == page;
  }

  // ---------------------------------------------------------------------------
  // What a visit changes

  /** Positions in strictly increasing order (as every page is). */
  predicate Increasing(page: seq<nat>) {
    forall j, k :: 0 <= j < k < |page| ==> page[j] < page[k]
  }

  /** The row a visit leaves at a position: the written row when the script
      writes one, else the row as it was. */
  function Visited(row: Value, u: Value -> Visit): Value {
    if u(row).write.Some? then u(row).write.value else row
  }

  /** Visiting a page changes only its rows, each as its own visit says. */
  lemma {:induction false} VisitAllRows(t: Tally, page: seq<nat>, u: Value -> Visit)
    requires forall j :: 0 <= j < |page| ==> page[j] < |t.rows|
    requires Increasing(page)
    ensures forall i :: 0 <= i < |t.rows| && i !in page ==> VisitAll(t, page, u).rows[i] == t.rows[i]
    ensures forall j :: 0 <= j < |page| ==> VisitAll(t, page, u).rows[page[j]] == Visited(t.rows[page[j]], u)
  {
    if page != [] {
      var n := |page| - 1;
      var init := page[..n];
      VisitAllRows(t, init, u);
      assert forall j :: 0 <= j < n ==> init[j] == page[j];
      assert page[n] !in init;
      forall i | 0 <= i < |t.rows| && i !in page
        ensures VisitAll(t, page, u).rows[i] == t.rows[i]
      {
        assert i !in init;
      }
    }
  }

  /** Visiting a page changes no row outside it. */
  lemma {:induction false} VisitAllOutside(t: Tally, page: seq<nat>, u: Value -> Visit)
    ensures forall i :: 0 <= i < |t.rows| && i !in page ==> VisitAll(t, page, u).rows[i] == t.rows[i]
  {
    if page != [] {
      var n := |page| - 1;
      VisitAllOutside(t, page[..n], u);
      assert forall i :: i in page[..n] ==> i in page;
    }
  }

  /** Writes that keep the filter keep every row's match, whatever the
      page. */
  lemma {:induction false} VisitAllKeeps(t: Tally, page: seq<nat>, f: Value -> bool, u: Value -> Visit)
    requires Keeps(f, u)
    ensures forall i :: 0 <= i < |t.rows| ==> f(VisitAll(t, page, u).rows[i]) == f(t.rows[i])
  {
    if page != [] {
      VisitAllKeeps(t, page[..|page| - 1], f, u);
    }
  }

  /** The rows a page's visits count, in the table as it was. */
  function Counted(rows: seq<Value>, page: seq<nat>, u: Value -> Visit): (n: nat)
    ensures n <= |page|
  {
    if page == [] then 0
    else
      var i := page[|page| - 1];
      Counted(rows, page[..|page| - 1], u) + if i < |rows| && u(rows[i]).counted then 1 else 0
  }

  /** The `updated` counter grows by the rows the visits count. */
  lemma {:induction false} VisitAllCounts(t: Tally, page: seq<nat>, u: Value -> Visit)
    requires forall j :: 0 <= j < |page| ==> page[j] < |t.rows|
    requires Increasing(page)
    ensures VisitAll(t, page, u).updated == t.updated + Counted(t.rows, page, u)
  {
    if page != [] {
      var n := |page| - 1;
      VisitAllCounts(t, page[..n], u);
      VisitAllRows(t, page[..n], u);
      assert page[n] !in page[..n];
    }
  }

  /** Visiting two pages one after the other is visiting their
      concatenation. */
  lemma {:induction false} VisitAllAppend(t: Tally, a: seq<nat>, b: seq<nat>, u: Value -> Visit)
    ensures VisitAll(t, a + b, u) == VisitAll(VisitAll(t, a, u), b, u)
    decreases |b|
  {
    if b == [] {
      assert a + b == a;
    } else {
      var n := |b| - 1;
      assert (a + b)[..|a + b| - 1] == a + b[..n];
      assert (a + b)[|a + b| - 1] == b[n];
      VisitAllAppend(t, a, b[..n], u);
    }
  }

  /** Counting distributes over concatenation. */
  lemma {:induction false} CountedAppend(rows: seq<Value>, a: seq<nat>, b: seq<nat>, u: Value -> Visit)
    ensures Counted(rows, a + b, u) == Counted(rows, a, u) + Counted(rows, b, u)
    decreases |b|
  {
    if b == [] {
      assert a + b == a;
    } else {
      var n := |b| - 1;
      assert (a + b)[..|a + b| - 1] == a + b[..n];
      assert (a + b)[|a + b| - 1] == b[n];
      CountedAppend(rows, a, b[..n], u);
    }
  }

  /** Rows that agree on the filter match at the same positions. */
  lemma {:induction false} MatchingAgrees(a: seq<Value>, b: seq<Value>, f: Value -> bool)
    requires |a| == |b|
    requires forall i :: 0 <= i < |a| ==> f(a[i]) == f(b[i])
    ensures Matching(a, f) == Matching(b, f)
  {
    if a != [] {
      var n := |a| - 1;
      MatchingAgrees(a[..n], b[..n], f);
    }
  }

  /** The matching positions from `start` on. */
  function From(m: seq<nat>, start: nat): (r: seq<nat>)
    ensures |r| <= |m|
  {
    if start >= |m| then [] else m[start..]
  }

  /** A full page followed by the positions after it. */
  lemma FromFullPage(rows: seq<Value>, f: Value -> bool, start: nat, pageSize: nat)
    requires |Page(rows, f, start, pageSize)| == pageSize > 0
    ensures From(Matching(rows, f), start) ==
      Page(rows, f, start, pageSize) + From(Matching(rows, f), start + |Page(rows, f, start, pageSize)|)
  {
    PageIsSlice(rows, f, start, pageSize);
  }

  /** A short or empty page holds all the positions from `start` on. */
  lemma FromShortPage(rows: seq<Value>, f: Value -> bool, start: nat, pageSize: nat)
    requires |Page(rows, f, start, pageSize)| < pageSize
    ensures From(Matching(rows, f), start) == Page(rows, f, start, pageSize)
  {
    PageIsSlice(rows, f, start, pageSize);
  }

  // ---------------------------------------------------------------------------
  // A filter the writes keep

  /** A write never changes whether the row matches. */
  ghost predicate Keeps(f: Value -> bool, u: Value -> Visit) {
    forall r :: u(r).write.Some? ==> f(u(r).write.value) == f(r)
  }

  /** A page visit leaves the matching positions as they were. */
  ghost predicate KeepsFilter(v: PageVisit, f: Value -> bool) {
    forall t: Tally, p: seq<nat> {:trigger Matching(v(t, p).rows, f)} :: Matching(v(t, p).rows, f) == Matching(t.rows, f)
  }

  /** Writes that keep the filter make a page visit that keeps the
      matching positions. */
  lemma KeptVisit(f: Value -> bool, u: Value -> Visit)
    requires Keeps(f, u)
    ensures KeepsFilter(EachRow(u), f)
  {
    forall t: Tally, p: seq<nat>
      ensures Matching(VisitAll(t, p, u).rows, f) == Matching(t.rows, f)
    {
      VisitAllKeeps(t, p, f, u);
      MatchingAgrees(VisitAll(t, p, u).rows, t.rows, f);
    }
  }

  /** When the page visits keep the filter, the loop as written visits
      every matching row from `start` on exactly once, in table order. */
  lemma {:induction false} KeptFilterVisitsAll(t: Tally, q: Query, f: Value -> bool, v: PageVisit,
      pageSize: nat, start: nat)
    requires pageSize > 0 && IsPageQuery(q, f, pageSize)
    requires Composes(v) && KeepsFilter(v, f)
    ensures Run(t, q, v, pageSize, start) == v(t, From(Matching(t.rows, f), start))
    decreases |t.rows| - start
  {
    var page := q(t.rows, start);
    assert page == Page(t.rows, f, start, pageSize);
    if page == [] {
      FromShortPage(t.rows, f, start, pageSize);
      RunEmptyPage(t, q, v, pageSize, start);
    } else if |page| < pageSize {
      FromShortPage(t.rows, f, start, pageSize);
      RunShortPage(t, v(t, page), q, v, pageSize, start);
    } else {
      var next := v(t, page);
      var after := start + |page|;
      RunFullPage(t, page, next, q, v, pageSize, start, after);
      KeptFilterVisitsAll(next, q, f, v, pageSize, after);
      assert Matching(next.rows, f) == Matching(t.rows, f);
      FromFullPage(t.rows, f, start, pageSize);
      VisitThenRest(t, v, page, From(Matching(next.rows, f), after), From(Matching(t.rows, f), after),
        From(Matching(t.rows, f), start));
    }
  }

  /** The loop as written, on a table of one full page and one row more,
      all of them matching, whose visits take every row out of the filter:
      the second query, at offset `pageSize`, finds the one matching row
      left at offset 0 and returns nothing, so the last row is never
      visited although it still matches. */
  lemma OffsetSkipsRow(t: Tally, f: Value -> bool, u: Value -> Visit, pageSize: nat)
    requires pageSize > 0 && |t.rows| == pageSize + 1
    requires forall i :: 0 <= i < |t.rows| ==> f(t.rows[i]) && !f(Visited(t.rows[i], u))
    ensures var r := Run(t, PageQuery(f, pageSize), EachRow(u), pageSize, 0);
      r.rows[pageSize] == t.rows[pageSize] && f(r.rows[pageSize]) && r.scanned == t.scanned + pageSize
  {
    var q := PageQuery(f, pageSize);
    var v := EachRow(u);
    var page := q(t.rows, 0);
    FirstPageIsFull(t.rows, f, pageSize);
    VisitFirstPage(t, page, u, pageSize);
    var next := VisitAll(t, page, u);
    RunFullPage(t, page, next, q, v, pageSize, 0, pageSize);
    LastRowLeft(next.rows, f, pageSize);
    RunEmptyPage(next, q, v, pageSize, pageSize);
  }

  /** On a table whose rows all match, the first page is its first
      `pageSize` positions. */
  lemma FirstPageIsFull(rows: seq<Value>, f: Value -> bool, pageSize: nat)
    requires |rows| == pageSize + 1
    requires forall i :: 0 <= i < |rows| ==> f(rows[i])
    ensures |Page(rows, f, 0, pageSize)| == pageSize
    ensures forall j :: 0 <= j < pageSize ==> Page(rows, f, 0, pageSize)[j] == j
  {
    AllMatching(rows, f);
    PageIsSlice(rows, f, 0, pageSize);
  }

  /** Visiting the first `pageSize` positions of a table one row longer
      changes every row but the last. */
  lemma VisitFirstPage(t: Tally, page: seq<nat>, u: Value -> Visit, pageSize: nat)
    requires |t.rows| == pageSize + 1 && |page| == pageSize
    requires forall j :: 0 <= j < pageSize ==> page[j] == j
    ensures VisitAll(t, page, u).rows[pageSize] == t.rows[pageSize]
    ensures forall i :: 0 <= i < pageSize ==> VisitAll(t, page, u).rows[i] == Visited(t.rows[i], u)
  {
    assert Increasing(page);
    VisitAllRows(t, page, u);
    assert pageSize !in page;
    forall i | 0 <= i < pageSize
      ensures VisitAll(t, page, u).rows[i] == Visited(t.rows[i], u)
    {
      assert page[i] == i;
    }
  }

  /** A table whose rows before position `pageSize` do not match has no
      page at offset `pageSize`: one matching row at most is left. */
  lemma LastRowLeft(rows: seq<Value>, f: Value -> bool, pageSize: nat)
    requires pageSize > 0 && |rows| == pageSize + 1
    requires forall i :: 0 <= i < pageSize ==> !f(rows[i])
    ensures Page(rows, f, pageSize, pageSize) == []
  {
    assert forall i :: 0 <= i < pageSize ==> rows[..pageSize][i] == rows[i];
    NoneMatching(rows[..pageSize], f);
    assert |Matching(rows, f)| <= 1;
  }

  /** No position matches in a table none of whose rows match. */
  lemma {:induction false} NoneMatching(rows: seq<Value>, f: Value -> bool)
    requires forall i :: 0 <= i < |rows| ==> !f(rows[i])
    ensures Matching(rows, f) == []
  {
    if rows != [] {
      var n := |rows| - 1;
      assert forall i :: 0 <= i < n ==> rows[..n][i] == rows[i];
      NoneMatching(rows[..n], f);
    }
  }

  // ---------------------------------------------------------------------------
  // The loop as intended

  /** The positions of a page whose rows match in `rows`, in page order. */
  function StillMatching(rows: seq<Value>, page: seq<nat>, f: Value -> bool): (r: seq<nat>)
    ensures |r| <= |page|
  {
    if page == [] then []
    else
      var i := page[|page| - 1];
      StillMatching(rows, page[..|page| - 1], f) + (if i < |rows| && f(rows[i]) then [i] else [])
  }

  /** The positions kept are exactly the page's positions whose rows
      match. */
  lemma {:induction false} StillMatchingMembers(rows: seq<Value>, page: seq<nat>, f: Value -> bool)
    ensures forall x :: x in StillMatching(rows, page, f) <==> x in page && x < |rows| && f(rows[x])
  {
    if page != [] {
      var n := |page| - 1;
      StillMatchingMembers(rows, page[..n], f);
      assert page == page[..n] + [page[n]];
    }
  }

  /** The positions kept are in the page's order. */
  lemma {:induction false} StillMatchingIncreasing(rows: seq<Value>, page: seq<nat>, f: Value -> bool)
    requires Increasing(page)
    ensures Increasing(StillMatching(rows, page, f))
  {
    if page != [] {
      var n := |page| - 1;
      assert Increasing(page[..n]);
      StillMatchingIncreasing(rows, page[..n], f);
      StillMatchingMembers(rows, page[..n], f);
      var init := StillMatching(rows, page[..n], f);
      var r := StillMatching(rows, page, f);
      assert r == init + (if page[n] < |rows| && f(rows[page[n]]) then [page[n]] else []);
      forall j, k | 0 <= j < k < |r|
        ensures r[j] < r[k]
      {
        if k >= |init| {
          assert r[j] == init[j] && init[j] in init;
          var l :| 0 <= l < n && page[..n][l] == init[j];
        }
      }
    }
  }

  /** Two increasing sequences with the same elements are equal. */
  lemma {:induction false} IncreasingUnique(a: seq<nat>, b: seq<nat>)
    requires Increasing(a) && Increasing(b)
    requires forall x :: x in a <==> x in b
    ensures a == b
    decreases |a|
  {
    if a == [] {
      HeadIsMember(b);
    } else {
      assert a[0] in b;
      assert b[0] in a;
      assert a[0] == b[0];
      TailMembers(a);
      TailMembers(b);
      IncreasingUnique(a[1..], b[1..]);
    }
  }

  /** A non-empty sequence holds its first element. */
  lemma HeadIsMember(s: seq<nat>)
    ensures s == [] || s[0] in s
  {
  }

  /** The tail of an increasing sequence holds every element but the
      first. */
  lemma TailMembers(s: seq<nat>)
    requires Increasing(s) && s != []
    ensures forall x :: x in s[1..] <==> x in s && x != s[0]
  {
    forall x | x in s && x != s[0]
      ensures x in s[1..]
    {
      var k :| 0 <= k < |s| && s[k] == x;
      assert s[1..][k - 1] == x;
    }
  }

  /** Putting an increasing run of positions, taken from a slice, in the
      place of that slice keeps a sequence increasing. */
  lemma SpliceIncreasing(m: seq<nat>, start: nat, end: nat, k: seq<nat>)
    requires Increasing(m) && start <= end <= |m| && Increasing(k)
    requires forall x :: x in k ==> x in m[start..end]
    ensures Increasing(m[..start] + k + m[end..])
  {
    var r := m[..start] + k + m[end..];
    forall j, l | 0 <= j < l < |r|
      ensures r[j] < r[l]
    {
      if j < start && start <= l < start + |k| {
        assert k[l - start] in m[start..end];
      } else if start <= j < start + |k| && start + |k| <= l {
        assert k[j - start] in m[start..end];
      }
    }
  }

  /** A position in a slice of an increasing sequence is in no other part
      of it. */
  lemma SpliceMembers(m: seq<nat>, start: nat, end: nat, x: nat)
    requires Increasing(m) && start <= end <= |m|
    ensures x in m <==> x in m[..start] || x in m[start..end] || x in m[end..]
    ensures x in m[start..end] ==> x !in m[..start] && x !in m[end..]
  {
    assert m == m[..start] + m[start..end] + m[end..];
  }

  /** A table changed only at a slice of its matching positions: its new
      matching positions are those before the slice, the slice's positions
      that still match, and those after the slice. */
  lemma SpliceMatching(before: seq<Value>, after: seq<Value>, f: Value -> bool, m: seq<nat>, m': seq<nat>,
      start: nat, end: nat, kept: seq<nat>)
    requires |before| == |after| && Increasing(m) && Increasing(m') && start <= end <= |m|
    requires forall x: nat :: x in m <==> x < |before| && f(before[x])
    requires forall x: nat :: x in m' <==> x < |after| && f(after[x])
    requires forall i :: 0 <= i < |before| && i !in m[start..end] ==> after[i] == before[i]
    requires forall x: nat :: x in kept <==> x in m[start..end] && x < |after| && f(after[x])
    requires Increasing(m[..start] + kept + m[end..])
    ensures m' == m[..start] + kept + m[end..]
  {
    var r := m[..start] + kept + m[end..];
    forall x: nat
      ensures x in m' <==> x in r
    {
      SpliceMembers(m, start, end, x);
    }
    IncreasingUnique(m', r);
  }

  /** The matching positions are the positions of the matching rows. */
  lemma MatchingMembersAll(rows: seq<Value>, f: Value -> bool)
    ensures forall x: nat :: x in Matching(rows, f) <==> x < |rows| && f(rows[x])
  {
    forall x: nat
      ensures x in Matching(rows, f) <==> x < |rows| && f(rows[x])
    {
      MatchingMembers(rows, f, x);
    }
  }

  /** The matching positions are in increasing order. */
  lemma MatchingIncreasing(rows: seq<Value>, f: Value -> bool)
    ensures Increasing(Matching(rows, f))
  {
    MatchingFacts(rows, f);
  }

  /** After a page is visited, the matching positions are those before the
      page, the page's rows that still match, and those after the page. */
  lemma AfterPage(t: Tally, page: seq<nat>, next: Tally, f: Value -> bool, v: PageVisit, limit: nat,
      start: nat)
    requires page == Page(t.rows, f, start, limit) != [] && next == v(t, page)
    ensures start + |page| <= |Matching(t.rows, f)|
    ensures Matching(next.rows, f) ==
      Matching(t.rows, f)[..start] + StillMatching(next.rows, page, f) + Matching(t.rows, f)[start + |page|..]
  {
    var m := Matching(t.rows, f);
    var end := Min(start + limit, |m|);
    PageIsSlice(t.rows, f, start, limit);
    assert page == m[start..end] && end == start + |page|;
    AfterSlice(t.rows, next.rows, f, m, page, start, start + |page|);
  }

  /** After a visit that changes only a slice of the matching positions,
      the matching positions are those before it, its rows that still
      match, and those after it. */
  lemma AfterSlice(before: seq<Value>, after: seq<Value>, f: Value -> bool, m: seq<nat>, page: seq<nat>,
      start: nat, end: nat)
    requires m == Matching(before, f) && start <= end <= |m| && page == m[start..end] && |after| == |before|
    requires forall i :: 0 <= i < |before| && i !in page ==> after[i] == before[i]
    ensures Matching(after, f) == m[..start] + StillMatching(after, page, f) + m[end..]
  {
    var kept := StillMatching(after, page, f);
    MatchingIncreasing(before, f);
    assert Increasing(page);
    StillMatchingMembers(after, page, f);
    StillMatchingIncreasing(after, page, f);
    MatchingIncreasing(after, f);
    MatchingMembersAll(before, f);
    MatchingMembersAll(after, f);
    SpliceIncreasing(m, start, end, kept);
    SpliceMatching(before, after, f, m, Matching(after, f), start, end, kept);
  }

  /** Each full page of the loop as intended brings its offset closer to
      the end of the matching positions by the page's length. */
  lemma SettledProgress(t: Tally, page: seq<nat>, next: Tally, f: Value -> bool, v: PageVisit, limit: nat,
      start: nat)
    requires page == Page(t.rows, f, start, limit) != [] && next == v(t, page)
    ensures start + |page| <= |Matching(t.rows, f)|
    ensures |Matching(next.rows, f)| - (start + |StillMatching(next.rows, page, f)|) ==
      |Matching(t.rows, f)| - (start + |page|)
  {
    AfterPage(t, page, next, f, v, limit, start);
  }

  /** The loop as intended: the offset moves past only those rows of the
      page that still match after their visits, so the rows the visits
      took out of the filter do not push later matching rows past the next
      offset. A page that would not bring the offset closer to the end of
      the matching positions ends the loop; with the scripts' query that
      never happens (`SettledProgress`). */
  function RunSettled(t: Tally, q: Query, f: Value -> bool, v: PageVisit, pageSize: nat, start: nat)
    : (r: Tally)
    ensures |r.rows| == |t.rows|
    decreases |Matching(t.rows, f)| - start
  {
    var page := q(t.rows, start);
    if page == [] then t
    else
      var next := v(t, page);
      if |page| < pageSize then next
      else
        var after := start + |StillMatching(next.rows, page, f)|;
        if 0 <= |Matching(next.rows, f)| - after < |Matching(t.rows, f)| - start then
          RunSettled(next, q, f, v, pageSize, after)
        else next
  }

  /** An empty page ends the intended loop with nothing visited. */
  lemma SettledEmptyPage(t: Tally, q: Query, f: Value -> bool, v: PageVisit, pageSize: nat, start: nat)
    requires q(t.rows, start) == []
    ensures RunSettled(t, q, f, v, pageSize, start) == t
  {
  }

  /** A short page is the intended loop's last. */
  lemma SettledShortPage(t: Tally, next: Tally, q: Query, f: Value -> bool, v: PageVisit, pageSize: nat,
      start: nat)
    requires q(t.rows, start) != [] && |q(t.rows, start)| < pageSize && next == v(t, q(t.rows, start))
    ensures RunSettled(t, q, f, v, pageSize, start) == next
  {
  }

  /** After a full page the intended loop goes on from the offset past the
      page's rows that still match. */
  lemma SettledNextPage(t: Tally, page: seq<nat>, next: Tally, q: Query, f: Value -> bool, v: PageVisit,
      pageSize: nat, start: nat, start': nat)
    requires page == q(t.rows, start) && page != [] && |page| >= pageSize && next == v(t, page)
    requires start' == start + |StillMatching(next.rows, page, f)|
    requires 0 <= |Matching(next.rows, f)| - start' < |Matching(t.rows, f)| - start
    ensures RunSettled(t, q, f, v, pageSize, start) == RunSettled(next, q, f, v, pageSize, start')
  {
  }

  /** The loop as intended visits every row that matches at `start` or
      after it exactly once, in table order, whatever the writes do to the
      filter. */
  lemma {:induction false} SettledVisitsAll(t: Tally, q: Query, f: Value -> bool, v: PageVisit,
      pageSize: nat, start: nat)
    requires pageSize > 0 && IsPageQuery(q, f, pageSize) && Composes(v)
    ensures RunSettled(t, q, f, v, pageSize, start) == v(t, From(Matching(t.rows, f), start))
    decreases |Matching(t.rows, f)| - start
  {
    var page := q(t.rows, start);
    assert page == Page(t.rows, f, start, pageSize);
    if |page| < pageSize {
      SettledLastPage(t, page, q, f, v, pageSize, start);
    } else {
      var next := v(t, page);
      var after := start + |StillMatching(next.rows, page, f)|;
      SettledProgress(t, page, next, f, v, pageSize, start);
      SettledNextPage(t, page, next, q, f, v, pageSize, start, after);
      SettledVisitsAll(next, q, f, v, pageSize, after);
      SettledStep(t, page, next, f, v, pageSize, start, after);
    }
  }

  /** An empty or short page: the intended loop visits all the matching
      positions left. */
  lemma SettledLastPage(t: Tally, page: seq<nat>, q: Query, f: Value -> bool, v: PageVisit, pageSize: nat,
      start: nat)
    requires page == q(t.rows, start) == Page(t.rows, f, start, pageSize) && |page| < pageSize
    ensures RunSettled(t, q, f, v, pageSize, start) == v(t, From(Matching(t.rows, f), start))
  {
    FromShortPage(t.rows, f, start, pageSize);
    if page == [] {
      SettledEmptyPage(t, q, f, v, pageSize, start);
    } else {
      SettledShortPage(t, v(t, page), q, f, v, pageSize, start);
    }
  }

  /** A full page: visiting it and then the matching positions left after
      it visits the matching positions from `start`. */
  lemma SettledStep(t: Tally, page: seq<nat>, next: Tally, f: Value -> bool, v: PageVisit, pageSize: nat,
      start: nat, after: nat)
    requires pageSize > 0 && page == Page(t.rows, f, start, pageSize) && |page| >= pageSize
    requires next == v(t, page) && after == start + |StillMatching(next.rows, page, f)| && Composes(v)
    ensures v(next, From(Matching(next.rows, f), after)) == v(t, From(Matching(t.rows, f), start))
  {
    SettledResume(t, page, next, f, v, pageSize, start);
    FromFullPage(t.rows, f, start, pageSize);
    VisitThenRest(t, v, page, From(Matching(next.rows, f), after), From(Matching(t.rows, f), start + |page|),
      From(Matching(t.rows, f), start));
  }

  /** A run that visits a page and then the positions after it visits the
      page followed by those positions. */
  lemma VisitThenRest(t: Tally, v: PageVisit, page: seq<nat>, rest': seq<nat>, rest: seq<nat>, all: seq<nat>)
    requires Composes(v)
    requires rest' == rest && all == page + rest
    ensures v(v(t, page), rest') == v(t, all)
  {
  }

  /** One page of the loop as intended: the offset it moves to in the new
      matching positions is where the positions after the page begin. */
  lemma SettledResume(t: Tally, page: seq<nat>, next: Tally, f: Value -> bool, v: PageVisit, limit: nat,
      start: nat)
    requires page == Page(t.rows, f, start, limit) != [] && next == v(t, page)
    ensures From(Matching(next.rows, f), start + |StillMatching(next.rows, page, f)|) ==
      From(Matching(t.rows, f), start + |page|)
  {
    AfterPage(t, page, next, f, v, limit, start);
    SpliceFrom(Matching(t.rows, f), Matching(next.rows, f), StillMatching(next.rows, page, f), start,
      start + |page|);
  }

  /** In a spliced sequence, the positions after the inserted run are those
      after the slice it replaced. */
  lemma SpliceFrom(m: seq<nat>, m': seq<nat>, kept: seq<nat>, start: nat, end: nat)
    requires start <= end <= |m| && m' == m[..start] + kept + m[end..]
    ensures From(m', start + |kept|) == From(m, end)
  {
    if end < |m| {
      assert m'[start + |kept|..] == m[end..];
    }
  }

  /** The loop as intended, on the table: it ends in the state the
      intended loop's definition gives. */
  method SettledUpdate(table: ArticleTable, q: Query, f: Value -> bool, u: Value -> Visit, ghost v: PageVisit, pageSize: nat)
    returns (scanned: nat, updated: nat)
    requires IsPageQuery(q, f, pageSize) && VisitsEachRow(v, u)
    modifies table
    ensures Tally(table.rows, scanned, updated) ==
      RunSettled(Tally(old(table.rows), 0, 0), q, f, v, pageSize, 0)
  {
    var start: nat := 0;
    scanned, updated := 0, 0;
    ghost var goal := RunSettled(Tally(table.rows, 0, 0), q, f, v, pageSize, 0);
    while true
      invariant RunSettled(Tally(table.rows, scanned, updated), q, f, v, pageSize, start) == goal
      decreases |Matching(table.rows, f)| - start
    {
      ghost var before := Tally(table.rows, scanned, updated);
      var page := q(table.rows, start);
      assert page == Page(before.rows, f, start, pageSize);
      if page == [] {
        SettledEmptyPage(before, q, f, v, pageSize, start);
        break;
      }
      scanned, updated := VisitPage(table, page, u, scanned, updated);
      if |page| < pageSize {
        SettledShortPage(before, Tally(table.rows, scanned, updated), q, f, v, pageSize, start);
        break;
      }
      var start' := start + |StillMatching(table.rows, page, f)|;
      SettledProgress(before, page, Tally(table.rows, scanned, updated), f, v, pageSize, start);
      SettledNextPage(before, page, Tally(table.rows, scanned, updated), q, f, v, pageSize, start, start');
      start := start';
    }
  }

  // ---------------------------------------------------------------------------
  // Whole runs

  /** With a filter its writes keep, the loop as written visits every
      matching row once, in table order. */
  lemma KeptRunVisitsMatching(t: Tally, f: Value -> bool, u: Value -> Visit, pageSize: nat)
    requires pageSize > 0 && Keeps(f, u)
    ensures Run(t, PageQuery(f, pageSize), EachRow(u), pageSize, 0) == VisitAll(t, Matching(t.rows, f), u)
  {
    var q := PageQuery(f, pageSize);
    var v := EachRow(u);
    KeptVisit(f, u);
    KeptFilterVisitsAll(t, q, f, v, pageSize, 0);
    assert From(Matching(t.rows, f), 0) == Matching(t.rows, f);
  }

  /** Whatever its writes do to the filter, the loop as intended visits
      every row that matched at the start once, in table order. */
  lemma SettledRunVisitsMatching(t: Tally, f: Value -> bool, u: Value -> Visit, pageSize: nat)
    requires pageSize > 0
    ensures RunSettled(t, PageQuery(f, pageSize), f, EachRow(u), pageSize, 0) ==
      VisitAll(t, Matching(t.rows, f), u)
  {
    var q := PageQuery(f, pageSize);
    var v := EachRow(u);
    SettledVisitsAll(t, q, f, v, pageSize, 0);
    assert From(Matching(t.rows, f), 0) == Matching(t.rows, f);
  }

  /** Visiting every matching row: each matching row is left as its visit
      leaves it, every other row as it was; every matching row is scanned
      and the counted ones are added to `updated`. */
  lemma VisitMatching(t: Tally, f: Value -> bool, u: Value -> Visit)
    ensures var r := VisitAll(t, Matching(t.rows, f), u);
      |r.rows| == |t.rows| &&
      (forall i :: 0 <= i < |t.rows| ==> r.rows[i] == if f(t.rows[i]) then Visited(t.rows[i], u) else t.rows[i]) &&
      r.scanned == t.scanned + |Matching(t.rows, f)| &&
      r.updated == t.updated + |Matching(t.rows, CountedBy(f, u))|
  {
    var m := Matching(t.rows, f);
    var r := VisitAll(t, m, u);
    MatchingFacts(t.rows, f);
    VisitAllRows(t, m, u);
    VisitAllCounts(t, m, u);
    CountedMatching(t.rows, f, u);
    forall i | 0 <= i < |t.rows|
      ensures r.rows[i] == if f(t.rows[i]) then Visited(t.rows[i], u) else t.rows[i]
    {
      if f(t.rows[i]) {
        var j :| 0 <= j < |m| && m[j] == i;
      } else {
        assert i !in m;
      }
    }
  }

  /** The rows a visit counts among those a filter matches. */
  function CountedBy(f: Value -> bool, u: Value -> Visit): Value -> bool {
    (row: Value) => f(row) && u(row).counted
  }

  /** Counting the visits of the matching rows counts the matching rows
      whose visit counts. */
  lemma {:induction false} CountedMatching(rows: seq<Value>, f: Value -> bool, u: Value -> Visit)
    ensures Counted(rows, Matching(rows, f), u) == |Matching(rows, CountedBy(f, u))|
  {
    if rows != [] {
      var n := |rows| - 1;
      var a := Matching(rows[..n], f);
      var g := CountedBy(f, u);
      CountedMatching(rows[..n], f, u);
      MatchingFacts(rows[..n], f);
      CountedPrefix(rows, n, a, u);
      assert g(rows[n]) == (f(rows[n]) && u(rows[n]).counted);
      assert |Matching(rows, g)| == |Matching(rows[..n], g)| + if g(rows[n]) then 1 else 0;
      if f(rows[n]) {
        assert (a + [n])[..|a|] == a;
        assert Counted(rows, a + [n], u) == Counted(rows, a, u) + if u(rows[n]).counted then 1 else 0;
      } else {
        assert Matching(rows, f) == a;
      }
    }
  }

  /** Counting a page of positions below `k` reads only the first `k`
      rows. */
  lemma {:induction false} CountedPrefix(rows: seq<Value>, k: nat, page: seq<nat>, u: Value -> Visit)
    requires k <= |rows| && forall j :: 0 <= j < |page| ==> page[j] < k
    ensures Counted(rows, page, u) == Counted(rows[..k], page, u)
  {
    if page != [] {
      CountedPrefix(rows, k, page[..|page| - 1], u);
    }
  }

  /** What every visit of a page the query returns keeps, the loop as
      written keeps. */
  lemma {:induction false} RunKeeps(t: Tally, q: Query, v: PageVisit, pageSize: nat, start: nat,
      inv: Tally -> bool)
    requires inv(t)
    requires forall t': Tally, s: nat {:trigger v(t', q(t'.rows, s))} :: inv(t') ==> inv(v(t', q(t'.rows, s)))
    ensures inv(Run(t, q, v, pageSize, start))
    decreases |t.rows| - start
  {
    var page := q(t.rows, start);
    if page == [] {
      RunEmptyPage(t, q, v, pageSize, start);
    } else {
      var next := v(t, page);
      assert inv(next);
      if |page| < pageSize {
        RunShortPage(t, next, q, v, pageSize, start);
      } else {
        RunFullPage(t, page, next, q, v, pageSize, start, start + |page|);
        RunKeeps(next, q, v, pageSize, start + |page|, inv);
      }
    }
  }

  /** Every write takes the row out of the filter. */
  ghost predicate Settles(f: Value -> bool, u: Value -> Visit) {
    forall r :: u(r).write.Some? ==> !f(u(r).write.value)
  }

  /** Each row of `now` is the row of `rows` at its position, or that row
      as its visit leaves it when the filter matched it. */
  ghost predicate OnlyVisited(rows: seq<Value>, now: seq<Value>, f: Value -> bool, u: Value -> Visit) {
    |now| == |rows| &&
    forall i :: 0 <= i < |rows| ==> now[i] == rows[i] || (f(rows[i]) && now[i] == Visited(rows[i], u))
  }

  /** Visiting a page of rows that match keeps every row as it was or as
      its visit leaves it, when the writes take rows out of the filter. */
  lemma VisitOnlyVisited(rows: seq<Value>, t: Tally, page: seq<nat>, f: Value -> bool, u: Value -> Visit,
      start: nat, limit: nat)
    requires Settles(f, u) && OnlyVisited(rows, t.rows, f, u)
    requires page == Page(t.rows, f, start, limit)
    ensures OnlyVisited(rows, VisitAll(t, page, u).rows, f, u)
  {
    var after := VisitAll(t, page, u).rows;
    PageWithin(t.rows, f, start, limit);
    PageIsSlice(t.rows, f, start, limit);
    MatchingFacts(t.rows, f);
    VisitAllRows(t, page, u);
    forall i | 0 <= i < |rows|
      ensures after[i] == rows[i] || (f(rows[i]) && after[i] == Visited(rows[i], u))
    {
      if i in page {
        var j :| 0 <= j < |page| && page[j] == i;
        assert f(t.rows[i]);
        if u(rows[i]).write.Some? {
          assert !f(Visited(rows[i], u));
        }
        assert t.rows[i] == rows[i];
      }
    }
  }

  /** When every write takes its row out of the filter, the loop as
      written only ever leaves a row as it was or as its visit leaves a row
      that matched at the start. */
  lemma WrittenRunOnlyVisits(t: Tally, f: Value -> bool, u: Value -> Visit, pageSize: nat)
    requires Settles(f, u)
    ensures OnlyVisited(t.rows, Run(t, PageQuery(f, pageSize), EachRow(u), pageSize, 0).rows, f, u)
  {
    var q := PageQuery(f, pageSize);
    var v := EachRow(u);
    var inv := (t': Tally) => OnlyVisited(t.rows, t'.rows, f, u);
    forall t': Tally, s: nat | inv(t')
      ensures inv(v(t', q(t'.rows, s)))
    {
      var page := q(t'.rows, s);
      assert page == Page(t'.rows, f, s, pageSize);
      VisitOnlyVisited(t.rows, t', page, f, u, s, pageSize);
    }
    RunKeeps(t, q, v, pageSize, 0, inv);
  }
}
