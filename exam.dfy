/** `normalizeExam`: the exam record the API returns, with Hindi fallbacks
    and the exam, application, admit-card and result statuses derived from
    the stored dates when they are not stored. `today` is the `YYYY-MM-DD`
    date of the request. */
module Exam {
  import opened Wrappers
  import opened Text
  import opened Js
  import opened Status

  /** `typeof d[key] === 'string' ? d[key] : null`, with null as the empty
      string (both are falsy in the tests that follow). */
  function DateOf(d: Record, key: string): (r: string)
    ensures Field(d, key).Str? ==> r == Field(d, key).s
    ensures !Field(d, key).Str? ==> r == []
  {
    if Field(d, key).Str? then Field(d, key).s else []
  }

  /** The exam status, derived only when none is stored and there is an exam date. */
  function WithExamStatus(d: Record, today: string): Record {
    if !Truthy(Field(d, "status")) && DateOf(d, "examDate") != [] then
      d["status" := Str(ExamStatus(DateOf(d, "examDate"), today))]
    else d
  }

  /** The application status, derived when none is stored. */
  function WithApplicationStatus(d: Record, today: string): Record {
    if !Truthy(Field(d, "applicationStatus")) then
      d["applicationStatus" := Str(ApplicationStatus(DateOf(d, "applicationStartDate"), DateOf(d, "applicationEndDate"), today))]
    else d
  }

  /** The admit-card status, derived when none is stored; a stored
      `notreleased` is spelled `not-released`. */
  function WithAdmitCardStatus(d: Record, today: string): Record {
    if !Truthy(Field(d, "admitCardStatus")) then
      d["admitCardStatus" := Str(AdmitCardStatus(DateOf(d, "admitCardDate"), today))]
    else if Field(d, "admitCardStatus") == Str("notreleased") then
      d["admitCardStatus" := Str("not-released")]
    else d
  }

  /** The result status, derived when none is stored; a stored `notdeclared`
      is spelled `not-declared`. */
  function WithResultStatus(d: Record, today: string): Record {
    if !Truthy(Field(d, "resultStatus")) then
      d["resultStatus" := Str(ResultStatus(DateOf(d, "resultDate"), today))]
    else if Field(d, "resultStatus") == Str("notdeclared") then
      d["resultStatus" := Str("not-declared")]
    else d
  }

  /** The id and the Hindi fallbacks. */
  function Prepared(p: Record): Record {
    FillFrom(FillFrom(StringifyId(p), "titleHindi", "title"), "organizationHindi", "organization")
  }

  /** The normalized exam of a stored record. Every stored property other
      than the id, the Hindi fallbacks and the four statuses comes back
      unchanged. */
  function Normalized(p: Record, today: string): (r: Record)
    ensures SameExcept(r, p, DerivedKeys)
  {
    var q0 := StringifyId(p);
    var q1 := FillFrom(q0, "titleHindi", "title");
    var q2 := FillFrom(q1, "organizationHindi", "organization");
    var q3 := WithExamStatus(q2, today);
    var q4 := WithApplicationStatus(q3, today);
    var q5 := WithAdmitCardStatus(q4, today);
    var q6 := WithResultStatus(q5, today);
    UpdateKeeps(p, "id", Str(ToStr(Field(p, "id"))), DerivedKeys);
    FillFromKeeps(q0, "titleHindi", "title", DerivedKeys);
    FillFromKeeps(q1, "organizationHindi", "organization", DerivedKeys);
    ExamStepSame(q2, today);
    ApplicationStepSame(q3, today);
    AdmitCardStepSame(q4, today);
    ResultStepSame(q5, today);
    SameExceptTrans(q1, q0, p, DerivedKeys);
    SameExceptTrans(q2, q1, p, DerivedKeys);
    SameExceptTrans(q3, q2, p, DerivedKeys);
    SameExceptTrans(q4, q3, p, DerivedKeys);
    SameExceptTrans(q5, q4, p, DerivedKeys);
    SameExceptTrans(q6, q5, p, DerivedKeys);
    q6
  }

  /** `normalizeExam`; `None` stands for a missing entity. */
  method NormalizeExam(entity: Option<Record>, today: string) returns (r: Option<Record>)
    ensures entity.None? ==> r.None?
    ensures entity.Some? ==> r == Some(Normalized(entity.value, today))
  {
    if entity.None? {
      return None;
    }
    var n := Prepare(entity.value);
    n := ExamStep(n, today);
    n := ApplicationStep(n, today);
    n := AdmitCardStep(n, today);
    n := ResultStep(n, today);
    r := Some(n);
  }

  /** The id as a string, then the Hindi fallbacks. */
  method Prepare(p: Record) returns (n: Record)
    ensures n == Prepared(p)
  {
    n := StringifyId(p);
    if !Truthy(Field(n, "titleHindi")) && Truthy(Field(n, "title")) {
      n := n["titleHindi" := n["title"]];
    }
    if !Truthy(Field(n, "organizationHindi")) && Truthy(Field(n, "organization")) {
      n := n["organizationHindi" := n["organization"]];
    }
  }

  method ExamStep(n: Record, today: string) returns (m: Record)
    ensures m == WithExamStatus(n, today)
  {
    m := n;
    var examDate := DateOf(n, "examDate");
    if !Truthy(Field(n, "status")) && examDate != [] {
      m := n["status" := Str(ExamStatus(examDate, today))];
    }
  }

  method ApplicationStep(n: Record, today: string) returns (m: Record)
    ensures m == WithApplicationStatus(n, today)
  {
    m := n;
    if !Truthy(Field(n, "applicationStatus")) {
      var start := DateOf(n, "applicationStartDate");
      var end := DateOf(n, "applicationEndDate");
      m := n["applicationStatus" := Str(ApplicationStatus(start, end, today))];
    }
  }

  method AdmitCardStep(n: Record, today: string) returns (m: Record)
    ensures m == WithAdmitCardStatus(n, today)
  {
    m := n;
    if !Truthy(Field(n, "admitCardStatus")) {
      m := n["admitCardStatus" := Str(AdmitCardStatus(DateOf(n, "admitCardDate"), today))];
    } else if Field(n, "admitCardStatus") == Str("notreleased") {
      m := n["admitCardStatus" := Str("not-released")];
    }
  }

  method ResultStep(n: Record, today: string) returns (m: Record)
    ensures m == WithResultStatus(n, today)
  {
    m := n;
    if !Truthy(Field(n, "resultStatus")) {
      m := n["resultStatus" := Str(ResultStatus(DateOf(n, "resultDate"), today))];
    } else if Field(n, "resultStatus") == Str("notdeclared") {
      m := n["resultStatus" := Str("not-declared")];
    }
  }

  const DerivedKeys: set<string> := {"id", "titleHindi", "organizationHindi", "status", "applicationStatus",
    "admitCardStatus", "resultStatus"}

  /** Each status step changes nothing but its own status. */
  lemma ExamStepSame(q: Record, today: string)
    ensures SameExcept(WithExamStatus(q, today), q, DerivedKeys)
  {
    if WithExamStatus(q, today) != q {
      UpdateKeeps(q, "status", Str(ExamStatus(DateOf(q, "examDate"), today)), DerivedKeys);
    }
  }

  lemma ApplicationStepSame(q: Record, today: string)
    ensures SameExcept(WithApplicationStatus(q, today), q, DerivedKeys)
  {
    if WithApplicationStatus(q, today) != q {
      UpdateKeeps(q, "applicationStatus", Field(WithApplicationStatus(q, today), "applicationStatus"), DerivedKeys);
    }
  }

  lemma AdmitCardStepSame(q: Record, today: string)
    ensures SameExcept(WithAdmitCardStatus(q, today), q, DerivedKeys)
  {
    if WithAdmitCardStatus(q, today) != q {
      UpdateKeeps(q, "admitCardStatus", Field(WithAdmitCardStatus(q, today), "admitCardStatus"), DerivedKeys);
    }
  }

  lemma ResultStepSame(q: Record, today: string)
    ensures SameExcept(WithResultStatus(q, today), q, DerivedKeys)
  {
    if WithResultStatus(q, today) != q {
      UpdateKeeps(q, "resultStatus", Field(WithResultStatus(q, today), "resultStatus"), DerivedKeys);
    }
  }

  /** The preparing steps touch only the id and the Hindi fields. */
  lemma PreparedKeeps(p: Record, k: string)
    requires k != "id" && k != "titleHindi" && k != "organizationHindi"
    ensures Field(Prepared(p), k) == Field(p, k)
  {
    var q := StringifyId(p);
    assert Field(q, k) == Field(p, k);
    var q1 := FillFrom(q, "titleHindi", "title");
    assert Field(q1, k) == Field(q, k);
  }

  lemma ExamStepKeeps(q: Record, k: string, today: string)
    requires k != "status"
    ensures Field(WithExamStatus(q, today), k) == Field(q, k)
  {
  }

  lemma ApplicationStepKeeps(q: Record, k: string, today: string)
    requires k != "applicationStatus"
    ensures Field(WithApplicationStatus(q, today), k) == Field(q, k)
  {
  }

  lemma AdmitCardStepKeeps(q: Record, k: string, today: string)
    requires k != "admitCardStatus"
    ensures Field(WithAdmitCardStatus(q, today), k) == Field(q, k)
  {
  }

  lemma ResultStepKeeps(q: Record, k: string, today: string)
    requires k != "resultStatus"
    ensures Field(WithResultStatus(q, today), k) == Field(q, k)
  {
  }

  /** The status steps touch only the statuses. */
  lemma StatusStepsKeep(q: Record, k: string, today: string)
    requires k != "status" && k != "applicationStatus" && k != "admitCardStatus" && k != "resultStatus"
    ensures Field(WithResultStatus(WithAdmitCardStatus(WithApplicationStatus(WithExamStatus(q, today), today), today), today), k)
      == Field(q, k)
  {
    var q1 := WithExamStatus(q, today);
    ExamStepKeeps(q, k, today);
    var q2 := WithApplicationStatus(q1, today);
    ApplicationStepKeeps(q1, k, today);
    var q3 := WithAdmitCardStatus(q2, today);
    AdmitCardStepKeeps(q2, k, today);
    ResultStepKeeps(q3, k, today);
  }

  /** The id comes back as a string and the Hindi title and organization
      fall back to the English ones when missing. */
  lemma IdAndHindiFallbacks(p: Record, today: string)
    ensures Field(Normalized(p, today), "id") == Str(ToStr(Field(p, "id")))
    ensures Field(Normalized(p, today), "titleHindi") ==
      if !Truthy(Field(p, "titleHindi")) && Truthy(Field(p, "title")) then Field(p, "title") else Field(p, "titleHindi")
    ensures Field(Normalized(p, today), "organizationHindi") ==
      if !Truthy(Field(p, "organizationHindi")) && Truthy(Field(p, "organization")) then Field(p, "organization")
      else Field(p, "organizationHindi")
  {
    var q := StringifyId(p);
    assert Field(q, "title") == Field(p, "title") && Field(q, "titleHindi") == Field(p, "titleHindi");
    assert Field(q, "organization") == Field(p, "organization");
    assert Field(q, "organizationHindi") == Field(p, "organizationHindi");
    var q1 := FillFrom(q, "titleHindi", "title");
    assert Field(q1, "organization") == Field(p, "organization");
    assert Field(q1, "organizationHindi") == Field(p, "organizationHindi");
    assert Field(q1, "id") == Field(q, "id");
    var q2 := FillFrom(q1, "organizationHindi", "organization");
    assert Field(q2, "id") == Field(q, "id") && Field(q2, "titleHindi") == Field(q1, "titleHindi");
    StatusStepsKeep(q2, "id", today);
    StatusStepsKeep(q2, "titleHindi", today);
    StatusStepsKeep(q2, "organizationHindi", today);
  }

  /** The exam status: a stored one is kept; otherwise it is derived from a
      string exam date, and left absent without one. */
  lemma ExamStatusRule(p: Record, today: string)
    ensures Truthy(Field(p, "status")) ==> Field(Normalized(p, today), "status") == Field(p, "status")
    ensures !Truthy(Field(p, "status")) && DateOf(p, "examDate") != [] ==>
      Field(Normalized(p, today), "status") == Str(ExamStatus(DateOf(p, "examDate"), today))
    ensures !Truthy(Field(p, "status")) && DateOf(p, "examDate") == [] ==>
      Field(Normalized(p, today), "status") == Field(p, "status")
  {
    PreparedKeeps(p, "status");
    PreparedKeeps(p, "examDate");
    var q1 := WithExamStatus(Prepared(p), today);
    var q2 := WithApplicationStatus(q1, today);
    ApplicationStepKeeps(q1, "status", today);
    var q3 := WithAdmitCardStatus(q2, today);
    AdmitCardStepKeeps(q2, "status", today);
    ResultStepKeeps(q3, "status", today);
  }

  /** The application status is always present afterwards, and derived from
      the application dates when none is stored. */
  lemma ApplicationStatusRule(p: Record, today: string)
    ensures Truthy(Field(Normalized(p, today), "applicationStatus"))
    ensures !Truthy(Field(p, "applicationStatus")) ==>
      Field(Normalized(p, today), "applicationStatus")
      == Str(ApplicationStatus(DateOf(p, "applicationStartDate"), DateOf(p, "applicationEndDate"), today))
    ensures Truthy(Field(p, "applicationStatus")) ==>
      Field(Normalized(p, today), "applicationStatus") == Field(p, "applicationStatus")
  {
    PreparedKeeps(p, "applicationStatus");
    PreparedKeeps(p, "applicationStartDate");
    PreparedKeeps(p, "applicationEndDate");
    var q0 := Prepared(p);
    var q1 := WithExamStatus(q0, today);
    ExamStepKeeps(q0, "applicationStatus", today);
    ExamStepKeeps(q0, "applicationStartDate", today);
    ExamStepKeeps(q0, "applicationEndDate", today);
    var q2 := WithApplicationStatus(q1, today);
    var q3 := WithAdmitCardStatus(q2, today);
    AdmitCardStepKeeps(q2, "applicationStatus", today);
    ResultStepKeeps(q3, "applicationStatus", today);
  }

  /** The admit-card status is always present afterwards, never in the
      unhyphenated spelling, and derived from the admit-card date when none
      is stored. */
  lemma AdmitCardStatusRule(p: Record, today: string)
    ensures Truthy(Field(Normalized(p, today), "admitCardStatus"))
    ensures Field(Normalized(p, today), "admitCardStatus") != Str("notreleased")
    ensures !Truthy(Field(p, "admitCardStatus")) ==>
      Field(Normalized(p, today), "admitCardStatus") == Str(AdmitCardStatus(DateOf(p, "admitCardDate"), today))
  {
    PreparedKeeps(p, "admitCardStatus");
    PreparedKeeps(p, "admitCardDate");
    var q0 := Prepared(p);
    var q1 := WithExamStatus(q0, today);
    ExamStepKeeps(q0, "admitCardStatus", today);
    ExamStepKeeps(q0, "admitCardDate", today);
    var q2 := WithApplicationStatus(q1, today);
    ApplicationStepKeeps(q1, "admitCardStatus", today);
    ApplicationStepKeeps(q1, "admitCardDate", today);
    var q3 := WithAdmitCardStatus(q2, today);
    AdmitCardStepRule(q2, today);
    ResultStepKeeps(q3, "admitCardStatus", today);
  }

  lemma AdmitCardStepRule(q: Record, today: string)
    ensures Truthy(Field(WithAdmitCardStatus(q, today), "admitCardStatus"))
    ensures Field(WithAdmitCardStatus(q, today), "admitCardStatus") != Str("notreleased")
    ensures !Truthy(Field(q, "admitCardStatus")) ==>
      Field(WithAdmitCardStatus(q, today), "admitCardStatus") == Str(AdmitCardStatus(DateOf(q, "admitCardDate"), today))
  {
  }

  /** The result status is always present afterwards, never in the
      unhyphenated spelling, and derived from the result date when none is
      stored. */
  lemma ResultStatusRule(p: Record, today: string)
    ensures Truthy(Field(Normalized(p, today), "resultStatus"))
    ensures Field(Normalized(p, today), "resultStatus") != Str("notdeclared")
    ensures !Truthy(Field(p, "resultStatus")) ==>
      Field(Normalized(p, today), "resultStatus") == Str(ResultStatus(DateOf(p, "resultDate"), today))
  {
    PreparedKeeps(p, "resultStatus");
    PreparedKeeps(p, "resultDate");
    var q0 := Prepared(p);
    var q1 := WithExamStatus(q0, today);
    ExamStepKeeps(q0, "resultStatus", today);
    ExamStepKeeps(q0, "resultDate", today);
    var q2 := WithApplicationStatus(q1, today);
    ApplicationStepKeeps(q1, "resultStatus", today);
    ApplicationStepKeeps(q1, "resultDate", today);
    var q3 := WithAdmitCardStatus(q2, today);
    AdmitCardStepKeeps(q2, "resultStatus", today);
    AdmitCardStepKeeps(q2, "resultDate", today);
    ResultStepRule(q3, today);
  }

  lemma ResultStepRule(q: Record, today: string)
    ensures Truthy(Field(WithResultStatus(q, today), "resultStatus"))
    ensures Field(WithResultStatus(q, today), "resultStatus") != Str("notdeclared")
    ensures !Truthy(Field(q, "resultStatus")) ==>
      Field(WithResultStatus(q, today), "resultStatus") == Str(ResultStatus(DateOf(q, "resultDate"), today))
  {
  }
}
