/** The script that publishes the existing drafts: every article without a
    `publishedAt` and with an id gets `createdAt || updatedAt || now` as its
    `publishedAt`; with `DRY_RUN` on nothing is written but the same
    articles are counted. */
module PublishExisting {
  import opened Wrappers
  import opened Text
  import opened Js
  import Bootstrap
  import Paging

  /** An environment variable as the script reads it: `undefined` when it
      is unset. */
  function EnvValue(raw: Option<string>): (v: Value)
    ensures raw.None? ==> v == Undefined
    ensures raw.Some? ==> v == Str(raw.value)
  {
    if raw.Some? then Str(raw.value) else Undefined
  }

  /** `isTruthy`: `true` itself, or a value whose text, trimmed and
      lower-cased, is `1`, `true` or `yes`; `undefined` and `null` read as
      the empty text. Unset, `null` and `false` are off. */
  predicate IsTruthy(v: Value)
    ensures v == Bool(true) ==> IsTruthy(v)
    ensures Nullish(v) || v == Bool(false) ==> !IsTruthy(v)
    ensures v.Str? && Trim(v.s) == "1" ==> IsTruthy(v)
  {
    var text := ToStr(Coalesce(v, Str("")));
    var t := Lower(Trim(text));
    assert v == Bool(false) ==> |t| == 5 by {
      if v == Bool(false) {
        assert text == "false";
        TrimIdentity(text);
      }
    }
    assert Nullish(v) ==> t == [];
    v == Bool(true) || t == "1" || t == "true" || t == "yes"
  }

  /** On an environment variable the script's `isTruthy` agrees with the
      start-up code's flag reading: an unset `DRY_RUN` is off. */
  lemma DryRunIsFlag(raw: Option<string>)
    ensures IsTruthy(EnvValue(raw)) <==> Bootstrap.FlagOn(raw)
    ensures raw.None? ==> !IsTruthy(EnvValue(raw))
  {
    var v := EnvValue(raw);
    assert v != Bool(true);
    assert ToStr(Coalesce(v, Str(""))) == raw.GetOr("");
    assert Lower(Trim(ToStr(Coalesce(v, Str(""))))) == Bootstrap.FlagText(raw);
    if raw.None? {
      assert |Bootstrap.FlagText(raw)| == 0;
    }
  }

  /** `where: { publishedAt: null }`. */
  predicate Unpublished(row: Value) {
    !Paging.Live(row)
  }

  /** `row.createdAt || row.updatedAt || now`: never `null` nor missing. */
  function NewPublishedAt(row: Value, now: string): (r: Value)
    ensures !Nullish(r)
    ensures Truthy(Get(row, "createdAt")) ==> r == Get(row, "createdAt")
    ensures !Truthy(Get(row, "createdAt")) && Truthy(Get(row, "updatedAt")) ==> r == Get(row, "updatedAt")
    ensures !Truthy(Get(row, "createdAt")) && !Truthy(Get(row, "updatedAt")) ==> r == Str(now)
  {
    Or(Or(Get(row, "createdAt"), Get(row, "updatedAt")), Str(now))
  }

  /** The rows the script publishes: no `publishedAt`, and an id. */
  predicate Publishable(row: Value) {
    Unpublished(row) && Truthy(Get(row, "id"))
  }

  /** One row of a page: skipped without a count when it has no id,
      counted, and written unless this is a dry run. */
  function PublishRow(dryRun: bool, now: string, row: Value): (r: Paging.Visit)
    ensures r.counted <==> Truthy(Get(row, "id"))
    ensures r.write.Some? <==> Truthy(Get(row, "id")) && !dryRun
    ensures r.write.Some? ==>
      r.write.value.Obj? && r.write.value.props == row.props["publishedAt" := NewPublishedAt(row, now)]
  {
    if !Truthy(Get(row, "id")) then Paging.Visit(None, false)
    else if dryRun then Paging.Visit(None, true)
    else Paging.Visit(Some(Paging.WithField(row, "publishedAt", NewPublishedAt(row, now))), true)
  }

  function Publish(dryRun: bool, now: string): Value -> Paging.Visit {
    (row: Value) => PublishRow(dryRun, now, row)
  }

  /** The script's loop, as written: the offset moves by a page's length. */
  function Outcome(rows: seq<Value>, dryRun: bool, now: string): Paging.Tally {
    Paging.Run(Paging.Tally(rows, 0, 0), Paging.PageQuery(Unpublished, Paging.PageSize),
      Paging.EachRow(Publish(dryRun, now)), Paging.PageSize, 0)
  }

  /** The loop as intended: the offset moves past only the rows still
      unpublished after their visits. */
  function SettledOutcome(rows: seq<Value>, dryRun: bool, now: string): Paging.Tally {
    Paging.RunSettled(Paging.Tally(rows, 0, 0), Paging.PageQuery(Unpublished, Paging.PageSize),
      Unpublished, Paging.EachRow(Publish(dryRun, now)), Paging.PageSize, 0)
  }

  /** The script as written, on the table, with the clock's reading `now`;
      returns `scanned` and the number published (or, in a dry run, that
      would be). */
  method PublishAsWritten(table: Paging.ArticleTable, dryRunVar: Option<string>, now: string)
    returns (scanned: nat, updated: nat)
    modifies table
    ensures Paging.Tally(table.rows, scanned, updated) ==
      Outcome(old(table.rows), IsTruthy(EnvValue(dryRunVar)), now)
  {
    var dryRun := IsTruthy(EnvValue(dryRunVar));
    var u := Publish(dryRun, now);
    scanned, updated := Paging.PagedUpdate(table, Paging.PageQuery(Unpublished, Paging.PageSize),
      u, Paging.EachRow(u), Paging.PageSize);
  }

  /** The script as intended, on the table. */
  method PublishExisting(table: Paging.ArticleTable, dryRunVar: Option<string>, now: string)
    returns (scanned: nat, updated: nat)
    modifies table
    ensures Paging.Tally(table.rows, scanned, updated) ==
      SettledOutcome(old(table.rows), IsTruthy(EnvValue(dryRunVar)), now)
  {
    var dryRun := IsTruthy(EnvValue(dryRunVar));
    var u := Publish(dryRun, now);
    scanned, updated := Paging.SettledUpdate(table, Paging.PageQuery(Unpublished, Paging.PageSize),
      Unpublished, u, Paging.EachRow(u), Paging.PageSize);
  }

  /** Every write publishes its row. */
  lemma PublishSettles(now: string)
    ensures Paging.Settles(Unpublished, Publish(false, now))
  {
    forall r | Publish(false, now)(r).write.Some?
      ensures !Unpublished(Publish(false, now)(r).write.value)
    {
      var w := PublishRow(false, now, r).write.value;
      assert Get(w, "publishedAt") == NewPublishedAt(r, now);
    }
  }

  /** The rows a visit counts are the publishable ones, in both modes. */
  lemma CountedArePublishable(rows: seq<Value>, dryRun: bool, now: string)
    ensures Paging.Matching(rows, Paging.CountedBy(Unpublished, Publish(dryRun, now))) ==
      Paging.Matching(rows, Publishable)
  {
    var g := Paging.CountedBy(Unpublished, Publish(dryRun, now));
    forall i | 0 <= i < |rows|
      ensures g(rows[i]) == Publishable(rows[i])
    {
      assert g(rows[i]) == (Unpublished(rows[i]) && PublishRow(dryRun, now, rows[i]).counted);
    }
    Paging.SameMatching(rows, g, Publishable);
  }

  /** A dry run writes nothing, scans every unpublished article and counts
      those with an id. */
  lemma DryRunChangesNothing(rows: seq<Value>, now: string)
    ensures Outcome(rows, true, now).rows == rows
    ensures Outcome(rows, true, now).scanned == |Paging.Matching(rows, Unpublished)|
    ensures Outcome(rows, true, now).updated == |Paging.Matching(rows, Publishable)|
  {
    var t := Paging.Tally(rows, 0, 0);
    var u := Publish(true, now);
    assert Paging.Keeps(Unpublished, u);
    Paging.KeptRunVisitsMatching(t, Unpublished, u, Paging.PageSize);
    Paging.VisitMatching(t, Unpublished, u);
    CountedArePublishable(rows, true, now);
    var r := Outcome(rows, true, now).rows;
    forall i | 0 <= i < |rows|
      ensures r[i] == rows[i]
    {
      assert !u(rows[i]).write.Some?;
    }
  }

  /** The loop as written only ever publishes an article that had no
      `publishedAt` and had an id, and leaves every other row as it was. */
  lemma WrittenOnlyPublishes(rows: seq<Value>, now: string)
    ensures |Outcome(rows, false, now).rows| == |rows|
    ensures forall i :: 0 <= i < |rows| ==>
      Outcome(rows, false, now).rows[i] == rows[i] ||
      (Publishable(rows[i]) &&
       Outcome(rows, false, now).rows[i] == Paging.WithField(rows[i], "publishedAt", NewPublishedAt(rows[i], now)))
  {
    var u := Publish(false, now);
    PublishSettles(now);
    Paging.WrittenRunOnlyVisits(Paging.Tally(rows, 0, 0), Unpublished, u, Paging.PageSize);
    var r := Outcome(rows, false, now).rows;
    forall i | 0 <= i < |rows| && r[i] != rows[i]
      ensures Publishable(rows[i]) &&
        r[i] == Paging.WithField(rows[i], "publishedAt", NewPublishedAt(rows[i], now))
    {
      assert u(rows[i]).write.Some?;
    }
  }

  /** The loop as written skips an article: on 501 unpublished articles
      with ids, the first page publishes 500 of them, the query at offset
      500 then finds the one left at offset 0 and returns nothing, so that
      article stays unpublished and only 500 are scanned. */
  lemma OffsetLeavesDraft(rows: seq<Value>, now: string)
    requires |rows| == Paging.PageSize + 1
    requires forall i :: 0 <= i < |rows| ==> Publishable(rows[i])
    ensures Outcome(rows, false, now).rows[Paging.PageSize] == rows[Paging.PageSize]
    ensures Unpublished(Outcome(rows, false, now).rows[Paging.PageSize])
    ensures Outcome(rows, false, now).scanned == Paging.PageSize
  {
    var u := Publish(false, now);
    PublishSettles(now);
    forall i | 0 <= i < |rows|
      ensures Unpublished(rows[i]) && !Unpublished(Paging.Visited(rows[i], u))
    {
      assert u(rows[i]).write.Some?;
    }
    Paging.OffsetSkipsRow(Paging.Tally(rows, 0, 0), Unpublished, u, Paging.PageSize);
  }

  /** The loop as intended publishes every article that had no
      `publishedAt` and had an id, and leaves every other row as it was. */
  lemma PublishesEveryDraft(rows: seq<Value>, now: string)
    ensures |SettledOutcome(rows, false, now).rows| == |rows|
    ensures forall i :: 0 <= i < |rows| && Publishable(rows[i]) ==>
      SettledOutcome(rows, false, now).rows[i] ==
        Paging.WithField(rows[i], "publishedAt", NewPublishedAt(rows[i], now)) &&
      !Unpublished(SettledOutcome(rows, false, now).rows[i])
    ensures forall i :: 0 <= i < |rows| && !Publishable(rows[i]) ==>
      SettledOutcome(rows, false, now).rows[i] == rows[i]
  {
    var t := Paging.Tally(rows, 0, 0);
    var u := Publish(false, now);
    PublishSettles(now);
    Paging.SettledRunVisitsMatching(t, Unpublished, u, Paging.PageSize);
    Paging.VisitMatching(t, Unpublished, u);
    var r := SettledOutcome(rows, false, now).rows;
    forall i | 0 <= i < |rows|
      ensures Publishable(rows[i]) ==>
        r[i] == Paging.WithField(rows[i], "publishedAt", NewPublishedAt(rows[i], now)) && !Unpublished(r[i])
      ensures !Publishable(rows[i]) ==> r[i] == rows[i]
    {
      if Publishable(rows[i]) {
        assert u(rows[i]).write.Some?;
      } else if Unpublished(rows[i]) {
        assert !u(rows[i]).write.Some?;
      }
    }
  }

  /** The loop as intended scans every article that had no `publishedAt`
      and counts exactly what a dry run counts. */
  lemma PublishCountsAsDryRun(rows: seq<Value>, now: string)
    ensures SettledOutcome(rows, false, now).scanned == |Paging.Matching(rows, Unpublished)|
    ensures SettledOutcome(rows, false, now).updated == Outcome(rows, true, now).updated
  {
    var t := Paging.Tally(rows, 0, 0);
    var u := Publish(false, now);
    Paging.SettledRunVisitsMatching(t, Unpublished, u, Paging.PageSize);
    Paging.VisitMatching(t, Unpublished, u);
    CountedArePublishable(rows, false, now);
    DryRunChangesNothing(rows, now);
  }
}
