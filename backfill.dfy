/** The script that stamps `publishedAt` on the articles that evidently
    were meant to be public: every article with neither `publishedAt` nor
    `scheduledAt` that has views, a featured or breaking flag, or a hero
    priority, and has an id, gets the script's start time as its
    `publishedAt`. */
module PublishedAtBackfill {
  import opened Wrappers
  import opened Js
  import Paging

  /** `views: { $gt: 0 }`. */
  predicate HasViews(row: Value) {
    var views := Get(row, "views");
    IsNumber(views) && NumGreater(views, 0)
  }

  /** One of the four flag spellings is `true`. */
  predicate Flagged(row: Value) {
    Get(row, "is_featured") == Bool(true) || Get(row, "is_breaking") == Bool(true) ||
    Get(row, "isFeatured") == Bool(true) || Get(row, "isBreaking") == Bool(true)
  }

  /** The query's filters: no `publishedAt`, no `scheduledAt`, and one of
      the six `$or` conditions. Only a stored article that is not live can
      match, and any hero priority, even 0, makes an undated article match. */
  predicate Candidate(row: Value)
    ensures Candidate(row) ==> row.Obj? && !Paging.Live(row)
    ensures Nullish(Get(row, "publishedAt")) && Nullish(Get(row, "scheduledAt")) && Get(row, "heroPriority") == Num(0)
      ==> Candidate(row)
    ensures !Nullish(Get(row, "scheduledAt")) ==> !Candidate(row)
  {
    Nullish(Get(row, "publishedAt")) && Nullish(Get(row, "scheduledAt")) &&
    (HasViews(row) || Flagged(row) || !Nullish(Get(row, "heroPriority")))
  }

  /** The rows the script stamps: candidates with an id. */
  predicate Stampable(row: Value) {
    Candidate(row) && Truthy(Get(row, "id"))
  }

  /** One row of a page: skipped without a count when it has no id,
      otherwise given `publishedAt: nowIso` and counted. */
  function StampRow(nowIso: string, row: Value): (r: Paging.Visit)
    ensures r.counted <==> Truthy(Get(row, "id"))
    ensures r.write.Some? <==> Truthy(Get(row, "id"))
    ensures r.write.Some? ==>
      r.write.value.Obj? && r.write.value.props == row.props["publishedAt" := Str(nowIso)]
  {
    if !Truthy(Get(row, "id")) then Paging.Visit(None, false)
    else Paging.Visit(Some(Paging.WithField(row, "publishedAt", Str(nowIso))), true)
  }

  function Stamp(nowIso: string): Value -> Paging.Visit {
    (row: Value) => StampRow(nowIso, row)
  }

  /** The script's loop, as written: the offset moves by a page's length. */
  function Outcome(rows: seq<Value>, nowIso: string): Paging.Tally {
    Paging.Run(Paging.Tally(rows, 0, 0), Paging.PageQuery(Candidate, Paging.PageSize),
      Paging.EachRow(Stamp(nowIso)), Paging.PageSize, 0)
  }

  /** The loop as intended: the offset moves past only the rows still
      candidates after their visits. */
  function SettledOutcome(rows: seq<Value>, nowIso: string): Paging.Tally {
    Paging.RunSettled(Paging.Tally(rows, 0, 0), Paging.PageQuery(Candidate, Paging.PageSize),
      Candidate, Paging.EachRow(Stamp(nowIso)), Paging.PageSize, 0)
  }

  /** The script as written, on the table, with the clock's reading at the
      start `nowIso`; returns the number of articles stamped. */
  method BackfillAsWritten(table: Paging.ArticleTable, nowIso: string) returns (updated: nat)
    modifies table
    ensures table.rows == Outcome(old(table.rows), nowIso).rows
    ensures updated == Outcome(old(table.rows), nowIso).updated
  {
    var u := Stamp(nowIso);
    var scanned;
    scanned, updated := Paging.PagedUpdate(table, Paging.PageQuery(Candidate, Paging.PageSize),
      u, Paging.EachRow(u), Paging.PageSize);
  }

  /** The script as intended, on the table. */
  method Backfill(table: Paging.ArticleTable, nowIso: string) returns (updated: nat)
    modifies table
    ensures table.rows == SettledOutcome(old(table.rows), nowIso).rows
    ensures updated == SettledOutcome(old(table.rows), nowIso).updated
  {
    var u := Stamp(nowIso);
    var scanned;
    scanned, updated := Paging.SettledUpdate(table, Paging.PageQuery(Candidate, Paging.PageSize),
      Candidate, u, Paging.EachRow(u), Paging.PageSize);
  }

  /** Every write takes its row out of the candidates and makes it live. */
  lemma StampSettles(nowIso: string)
    ensures Paging.Settles(Candidate, Stamp(nowIso))
    ensures forall r :: Stamp(nowIso)(r).write.Some? ==> Paging.Live(Stamp(nowIso)(r).write.value)
  {
    forall r | Stamp(nowIso)(r).write.Some?
      ensures !Candidate(Stamp(nowIso)(r).write.value) && Paging.Live(Stamp(nowIso)(r).write.value)
    {
      var w := StampRow(nowIso, r).write.value;
      assert Get(w, "publishedAt") == Str(nowIso);
    }
  }

  /** The loop as written only ever stamps a candidate with an id, and
      leaves every other row as it was. */
  lemma WrittenOnlyStamps(rows: seq<Value>, nowIso: string)
    ensures |Outcome(rows, nowIso).rows| == |rows|
    ensures forall i :: 0 <= i < |rows| ==>
      Outcome(rows, nowIso).rows[i] == rows[i] ||
      (Stampable(rows[i]) && Outcome(rows, nowIso).rows[i] == Paging.WithField(rows[i], "publishedAt", Str(nowIso)))
  {
    var u := Stamp(nowIso);
    StampSettles(nowIso);
    Paging.WrittenRunOnlyVisits(Paging.Tally(rows, 0, 0), Candidate, u, Paging.PageSize);
    var r := Outcome(rows, nowIso).rows;
    forall i | 0 <= i < |rows| && r[i] != rows[i]
      ensures Stampable(rows[i]) && r[i] == Paging.WithField(rows[i], "publishedAt", Str(nowIso))
    {
      assert u(rows[i]).write.Some?;
    }
  }

  /** The loop as written skips an article: on 501 candidates with ids,
      the first page stamps 500 of them, the query at offset 500 then finds
      the one left at offset 0 and returns nothing, so that article keeps
      no `publishedAt` and only 500 rows are visited. */
  lemma OffsetLeavesCandidate(rows: seq<Value>, nowIso: string)
    requires |rows| == Paging.PageSize + 1
    requires forall i :: 0 <= i < |rows| ==> Stampable(rows[i])
    ensures Outcome(rows, nowIso).rows[Paging.PageSize] == rows[Paging.PageSize]
    ensures Candidate(Outcome(rows, nowIso).rows[Paging.PageSize])
    ensures Outcome(rows, nowIso).scanned == Paging.PageSize
  {
    var u := Stamp(nowIso);
    StampSettles(nowIso);
    forall i | 0 <= i < |rows|
      ensures Candidate(rows[i]) && !Candidate(Paging.Visited(rows[i], u))
    {
      assert u(rows[i]).write.Some?;
    }
    Paging.OffsetSkipsRow(Paging.Tally(rows, 0, 0), Candidate, u, Paging.PageSize);
  }

  /** The loop as intended stamps every candidate with an id, which then
      is live, and leaves every other row as it was. */
  lemma StampsEveryCandidate(rows: seq<Value>, nowIso: string)
    ensures |SettledOutcome(rows, nowIso).rows| == |rows|
    ensures forall i :: 0 <= i < |rows| && Stampable(rows[i]) ==>
      SettledOutcome(rows, nowIso).rows[i] == Paging.WithField(rows[i], "publishedAt", Str(nowIso)) &&
      Paging.Live(SettledOutcome(rows, nowIso).rows[i])
    ensures forall i :: 0 <= i < |rows| && !Stampable(rows[i]) ==>
      SettledOutcome(rows, nowIso).rows[i] == rows[i]
  {
    var t := Paging.Tally(rows, 0, 0);
    var u := Stamp(nowIso);
    StampSettles(nowIso);
    Paging.SettledRunVisitsMatching(t, Candidate, u, Paging.PageSize);
    Paging.VisitMatching(t, Candidate, u);
    var r := SettledOutcome(rows, nowIso).rows;
    forall i | 0 <= i < |rows|
      ensures Stampable(rows[i]) ==>
        r[i] == Paging.WithField(rows[i], "publishedAt", Str(nowIso)) && Paging.Live(r[i])
      ensures !Stampable(rows[i]) ==> r[i] == rows[i]
    {
      if Stampable(rows[i]) {
        assert u(rows[i]).write.Some?;
      } else if Candidate(rows[i]) {
        assert !u(rows[i]).write.Some?;
      }
    }
  }

  /** The loop as intended counts exactly the candidates with an id. */
  lemma StampCounts(rows: seq<Value>, nowIso: string)
    ensures SettledOutcome(rows, nowIso).updated == |Paging.Matching(rows, Stampable)|
  {
    var t := Paging.Tally(rows, 0, 0);
    var u := Stamp(nowIso);
    var g := Paging.CountedBy(Candidate, u);
    Paging.SettledRunVisitsMatching(t, Candidate, u, Paging.PageSize);
    Paging.VisitMatching(t, Candidate, u);
    forall i | 0 <= i < |rows|
      ensures g(rows[i]) == Stampable(rows[i])
    {
      assert g(rows[i]) == (Candidate(rows[i]) && StampRow(nowIso, rows[i]).counted);
    }
    Paging.SameMatching(rows, g, Stampable);
  }
}
