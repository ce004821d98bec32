/** Status derivation: the draft/scheduled/published status the article and
    editorial controllers report, and the date-driven statuses of exams.
    Dates are ISO `YYYY-MM-DD` strings compared as strings, and `today` is a
    parameter. */
module Status {
  import opened Text
  import opened Js

  datatype PublicationStatus = Draft | Scheduled | Published

  /** `entity?.k ? String(entity.k) : entity?.legacy ? String(entity.legacy) : ''`. */
  function DateText(entity: Value, key: string, legacyKey: string): (r: string)
    ensures (Truthy(Get(entity, key)) && !Get(entity, key).Arr?) ==> r == ToStr(Get(entity, key)) && r != []
    ensures (!Truthy(Get(entity, key)) && Truthy(Get(entity, legacyKey)) && !Get(entity, legacyKey).Arr?) ==>
      r == ToStr(Get(entity, legacyKey)) && r != []
    ensures r != [] ==> Truthy(Get(entity, key)) || Truthy(Get(entity, legacyKey))
  {
    if Truthy(Get(entity, key)) then ToStr(Get(entity, key))
    else if Truthy(Get(entity, legacyKey)) then ToStr(Get(entity, legacyKey))
    else ""
  }

  /** Published when there is a publication date, else scheduled when there
      is a scheduled date, else draft. */
  function DeriveStatus(publishedAt: string, scheduledAt: string): (r: PublicationStatus)
    ensures r == Published <==> publishedAt != []
    ensures r == Scheduled <==> publishedAt == [] && scheduledAt != []
    ensures r == Draft <==> publishedAt == [] && scheduledAt == []
  {
    if publishedAt != [] then Published
    else if scheduledAt != [] then Scheduled
    else Draft
  }

  /** The status of a stored article or editorial: a truthy publication date
      (other than an array, whose text may be empty) makes it published, a
      scheduled date can only make it scheduled, and with no date at all it is
      a draft. Without a publication date, a truthy scheduled date (other
      than an array) under either spelling makes it scheduled. */
  function EntityStatus(entity: Value): (r: PublicationStatus)
    ensures Truthy(Get(entity, "publishedAt")) && !Get(entity, "publishedAt").Arr? ==> r == Published
    ensures (!Truthy(Get(entity, "publishedAt")) && Truthy(Get(entity, "published_at"))
             && !Get(entity, "published_at").Arr?) ==> r == Published
    ensures (!Truthy(Get(entity, "publishedAt")) && !Truthy(Get(entity, "published_at"))
             && Truthy(Get(entity, "scheduledAt")) && !Get(entity, "scheduledAt").Arr?) ==> r == Scheduled
    ensures (!Truthy(Get(entity, "publishedAt")) && !Truthy(Get(entity, "published_at"))
             && !Truthy(Get(entity, "scheduledAt")) && Truthy(Get(entity, "scheduled_at"))
             && !Get(entity, "scheduled_at").Arr?) ==> r == Scheduled
    ensures r == Published ==> Truthy(Get(entity, "publishedAt")) || Truthy(Get(entity, "published_at"))
    ensures r == Scheduled ==> Truthy(Get(entity, "scheduledAt")) || Truthy(Get(entity, "scheduled_at"))
    ensures (!Truthy(Get(entity, "publishedAt")) && !Truthy(Get(entity, "published_at"))
             && !Truthy(Get(entity, "scheduledAt")) && !Truthy(Get(entity, "scheduled_at"))) ==> r == Draft
  {
    DeriveStatus(DateText(entity, "publishedAt", "published_at"), DateText(entity, "scheduledAt", "scheduled_at"))
  }

  /** A string publication date always wins over a scheduled date, and
      either spelling of the key counts. */
  lemma PublishedWins(entity: Value, date: string)
    requires date != []
    requires Get(entity, "publishedAt") == Str(date) || (!Truthy(Get(entity, "publishedAt")) && Get(entity, "published_at") == Str(date))
    ensures EntityStatus(entity) == Published
  {
  }

  // ---------------------------------------------------------------------------
  // Exams

  /** `a > b` on date strings. */
  predicate After(a: string, b: string) { LexLess(b, a) }

  /** Two date strings are equal, or exactly one is before the other. */
  lemma Trichotomy(a: string, b: string)
    ensures a == b || LexLess(a, b) || LexLess(b, a)
    ensures a == b ==> !LexLess(a, b) && !LexLess(b, a)
    ensures LexLess(a, b) ==> !LexLess(b, a)
  {
    LexLessTotal(a, b);
    LexLessIrreflexive(a);
    if LexLess(a, b) { LexLessAsymmetric(a, b); }
  }

  /** The exam status derived from the exam date: later than today is
      upcoming, earlier is completed, today is ongoing. */
  function ExamStatus(examDate: string, today: string): (r: string)
    ensures r == "ongoing" <==> examDate == today
    ensures r == "upcoming" <==> After(examDate, today)
    ensures r == "completed" <==> After(today, examDate)
  {
    Trichotomy(examDate, today);
    if After(examDate, today) then "upcoming"
    else if LexLess(examDate, today) then "completed"
    else "ongoing"
  }

  /** The application status from the optional start and end dates (empty
      when absent). */
  function ApplicationStatus(start: string, end: string, today: string): (r: string)
    ensures r == "upcoming" <==> (start != [] && After(start, today)) || (start == [] && end == [])
    ensures r == "closed" <==> !(start != [] && After(start, today)) && end != [] && LexLess(end, today)
    ensures r == "open" <==>
      !(start != [] && After(start, today)) && !(end != [] && LexLess(end, today)) && (start != [] || end != [])
  {
    if start != [] && After(start, today) then "upcoming"
    else if end != [] && LexLess(end, today) then "closed"
    else if start != [] || end != [] then "open"
    else "upcoming"
  }

  /** The admit-card status from its optional date: released on or before today. */
  function AdmitCardStatus(admit: string, today: string): (r: string)
    ensures r == "available" <==> admit != [] && LexLessEq(admit, today)
    ensures r == "upcoming" <==> admit != [] && After(admit, today)
    ensures r == "not-released" <==> admit == []
  {
    Trichotomy(admit, today);
    if admit != [] && LexLessEq(admit, today) then "available"
    else if admit != [] && After(admit, today) then "upcoming"
    else "not-released"
  }

  /** The result status from its optional date: declared on or before today. */
  function ResultStatus(resultDate: string, today: string): (r: string)
    ensures r == "declared" <==> resultDate != [] && LexLessEq(resultDate, today)
    ensures r == "expected" <==> resultDate != [] && After(resultDate, today)
    ensures r == "not-declared" <==> resultDate == []
  {
    Trichotomy(resultDate, today);
    if resultDate != [] && LexLessEq(resultDate, today) then "declared"
    else if resultDate != [] && After(resultDate, today) then "expected"
    else "not-declared"
  }

  lemma LexLessEqTransitive(a: string, b: string, c: string)
    requires LexLessEq(a, b) && LexLessEq(b, c)
    ensures LexLessEq(a, c)
  {
    if a != b && b != c { LexLessTransitive(a, b, c); }
  }

  /** Once declared, a result stays declared on every later day; once an
      admit card is available it stays available. */
  lemma DeclaredStaysDeclared(resultDate: string, today: string, later: string)
    requires LexLessEq(today, later)
    requires ResultStatus(resultDate, today) == "declared"
    ensures ResultStatus(resultDate, later) == "declared"
    ensures AdmitCardStatus(resultDate, later) == "available"
  {
    LexLessEqTransitive(resultDate, today, later);
  }

  /** Once an exam is completed it stays completed on every later day. */
  lemma CompletedStaysCompleted(examDate: string, today: string, later: string)
    requires LexLessEq(today, later)
    requires ExamStatus(examDate, today) == "completed"
    ensures ExamStatus(examDate, later) == "completed"
  {
    if today != later { LexLessTransitive(examDate, today, later); }
  }

  /** Once applications are closed they stay closed on every later day. */
  lemma ClosedStaysClosed(start: string, end: string, today: string, later: string)
    requires LexLessEq(today, later)
    requires ApplicationStatus(start, end, today) == "closed"
    ensures ApplicationStatus(start, end, later) == "closed"
  {
    if today != later {
      LexLessTransitive(end, today, later);
      if start != [] && After(start, later) {
        LexLessTransitive(today, later, start);
      }
    }
  }
}
