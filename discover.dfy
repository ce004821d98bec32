/** The Discover eligibility backfill: every live article's
    `discoverEligible` flag is set to whether its featured image is at least
    1200 pixels wide, and only the articles whose stored flag differs are
    written and counted. */
module DiscoverBackfill {
  import opened Wrappers
  import opened Js
  import Paging

  /** `featured_image.width` when it is a number, 0 otherwise. */
  function Width(entity: Value): (w: Value)
    ensures IsNumber(w)
  {
    var width := Get(Get(entity, "featured_image"), "width");
    if IsNumber(width) then width else Num(0)
  }

  /** `width >= 1200`: a stored width that is a number of at least 1200 (or
      positive infinity); a missing, non-numeric or `NaN` width never is. */
  predicate Eligible(entity: Value)
    ensures var width := Get(Get(entity, "featured_image"), "width");
      Eligible(entity) <==> (width.Num? && width.n >= 1200) || width == Infinity(false)
  {
    NumAtLeast(Width(entity), 1200)
  }

  /** One live article visited: when its stored flag is not the boolean
      its width gives, the flag is written and the article counted. */
  function Reconcile(entity: Value): (r: Paging.Visit)
    ensures r.counted <==> Get(entity, "discoverEligible") != Bool(Eligible(entity))
    ensures r.write.Some? <==> r.counted
    ensures r.write.Some? && entity.Obj? ==>
      r.write.value.Obj? && r.write.value.props == entity.props["discoverEligible" := Bool(Eligible(entity))]
  {
    var eligible := Bool(Eligible(entity));
    if Get(entity, "discoverEligible") != eligible then
      Paging.Visit(Some(Paging.WithField(entity, "discoverEligible", eligible)), true)
    else Paging.Visit(None, false)
  }

  /** The backfill's loop on a table, as the loop's definition gives it. */
  function Outcome(rows: seq<Value>): Paging.Tally {
    Paging.Run(Paging.Tally(rows, 0, 0), Paging.PageQuery(Paging.Live, Paging.PageSize),
      Paging.EachRow(Reconcile), Paging.PageSize, 0)
  }

  /** The script: the paged loop over live articles. */
  method Backfill(table: Paging.ArticleTable) returns (updated: nat)
    modifies table
    ensures table.rows == Outcome(old(table.rows)).rows
    ensures updated == Outcome(old(table.rows)).updated
  {
    var scanned;
    scanned, updated := Paging.PagedUpdate(table, Paging.PageQuery(Paging.Live, Paging.PageSize),
      Reconcile, Paging.EachRow(Reconcile), Paging.PageSize);
  }

  /** Writing the flag does not change whether an article is live, nor its
      width. */
  lemma ReconcileKeepsLive()
    ensures Paging.Keeps(Paging.Live, Reconcile)
  {
    forall r | Reconcile(r).write.Some?
      ensures Paging.Live(Reconcile(r).write.value) == Paging.Live(r)
    {
      var w := Reconcile(r).write.value;
      assert w == Paging.WithField(r, "discoverEligible", Bool(Eligible(r)));
      assert Get(w, "publishedAt") == Get(r, "publishedAt");
    }
  }

  /** Setting a flag to the value it has leaves the article as it is. */
  lemma FieldAlreadySet(row: Value, k: string, v: Value)
    requires row.Obj? && k in row.props && row.props[k] == v
    ensures Paging.WithField(row, k, v) == row
  {
    assert row.props[k := v] == row.props;
  }

  /** After the backfill every live article carries the flag its width
      gives, and every other article is as it was. */
  lemma BackfillSetsFlags(rows: seq<Value>)
    ensures |Outcome(rows).rows| == |rows|
    ensures forall i :: 0 <= i < |rows| && Paging.Live(rows[i]) && rows[i].Obj? ==>
      Outcome(rows).rows[i] == Paging.WithField(rows[i], "discoverEligible", Bool(Eligible(rows[i])))
    ensures forall i :: 0 <= i < |rows| && !Paging.Live(rows[i]) ==> Outcome(rows).rows[i] == rows[i]
  {
    var t := Paging.Tally(rows, 0, 0);
    ReconcileKeepsLive();
    Paging.KeptRunVisitsMatching(t, Paging.Live, Reconcile, Paging.PageSize);
    Paging.VisitMatching(t, Paging.Live, Reconcile);
    forall i | 0 <= i < |rows| && Paging.Live(rows[i]) && rows[i].Obj?
      ensures Paging.Visited(rows[i], Reconcile) ==
        Paging.WithField(rows[i], "discoverEligible", Bool(Eligible(rows[i])))
    {
      if Get(rows[i], "discoverEligible") == Bool(Eligible(rows[i])) {
        FieldAlreadySet(rows[i], "discoverEligible", Bool(Eligible(rows[i])));
      }
    }
  }

  /** The backfill counts exactly the live articles whose stored flag
      differed from the one their width gives. */
  lemma BackfillCounts(rows: seq<Value>)
    ensures Outcome(rows).updated == |Paging.Matching(rows, Paging.CountedBy(Paging.Live, Reconcile))|
    ensures Outcome(rows).scanned == |Paging.Matching(rows, Paging.Live)|
  {
    var t := Paging.Tally(rows, 0, 0);
    ReconcileKeepsLive();
    Paging.KeptRunVisitsMatching(t, Paging.Live, Reconcile, Paging.PageSize);
    Paging.VisitMatching(t, Paging.Live, Reconcile);
  }

  /** A live article is counted exactly when its stored flag differs from
      the one its width gives. */
  lemma CountedWhenStale(row: Value)
    ensures Paging.CountedBy(Paging.Live, Reconcile)(row) <==>
      Paging.Live(row) && Get(row, "discoverEligible") != Bool(Eligible(row))
  {
    assert Paging.CountedBy(Paging.Live, Reconcile)(row) ==
      (Paging.Live(row) && Reconcile(row).counted);
  }

  /** After one run every live article already carries the flag its width
      gives (when the articles are objects, as stored rows are). */
  lemma BackfillSettles(rows: seq<Value>)
    requires forall i :: 0 <= i < |rows| ==> rows[i].Obj?
    ensures |Outcome(rows).rows| == |rows|
    ensures forall i :: 0 <= i < |rows| ==> Outcome(rows).rows[i].Obj?
    ensures forall i :: 0 <= i < |rows| && Paging.Live(Outcome(rows).rows[i]) ==>
      Get(Outcome(rows).rows[i], "discoverEligible") == Bool(Eligible(Outcome(rows).rows[i]))
  {
    var once := Outcome(rows).rows;
    BackfillSetsFlags(rows);
    forall i | 0 <= i < |rows|
      ensures once[i].Obj? && Paging.Live(once[i]) == Paging.Live(rows[i])
      ensures Paging.Live(once[i]) ==> Get(once[i], "discoverEligible") == Bool(Eligible(once[i]))
    {
      if Paging.Live(rows[i]) {
        var e := Bool(Eligible(rows[i]));
        assert once[i] == Paging.WithField(rows[i], "discoverEligible", e);
        assert Get(once[i], "featured_image") == Get(rows[i], "featured_image");
        assert Get(once[i], "publishedAt") == Get(rows[i], "publishedAt");
      }
    }
  }

  /** Running the backfill a second time changes nothing and counts
      nothing (when the articles are objects, as stored rows are). */
  lemma BackfillIdempotent(rows: seq<Value>)
    requires forall i :: 0 <= i < |rows| ==> rows[i].Obj?
    ensures Outcome(Outcome(rows).rows).rows == Outcome(rows).rows
    ensures Outcome(Outcome(rows).rows).updated == 0
  {
    var once := Outcome(rows).rows;
    BackfillSettles(rows);
    BackfillSetsFlags(once);
    BackfillCounts(once);
    var twice := Outcome(once).rows;
    forall i | 0 <= i < |once|
      ensures twice[i] == once[i]
      ensures !Paging.CountedBy(Paging.Live, Reconcile)(once[i])
    {
      CountedWhenStale(once[i]);
      if Paging.Live(once[i]) {
        FieldAlreadySet(once[i], "discoverEligible", Bool(Eligible(once[i])));
      }
    }
    Paging.NoneMatching(once, Paging.CountedBy(Paging.Live, Reconcile));
  }
}
