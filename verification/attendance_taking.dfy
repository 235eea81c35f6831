/** The full-page attendance screen of one session. A session without
    attendance gets a fresh roster of eligible students, all absent; a
    session whose attendance was taken gets the eligible students merged with
    the stored records. Then come the row operations of the roster, a
    mark-all whose "present" direction asks first, and the submission. */
module AttendanceTaking {
  import opened Common
  import opened Search
  import opened Roster

  /** The fresh row of one eligible student: absent, no remarks, counts
      and the over-limit flag read through `||`. */
  function FreshRow(e: Eligible): (r: Row)
    ensures r.studentId == e.studentId && r.studentName == e.studentName
    ensures r.rollNo == e.rollNo && r.studentEmail == e.studentEmail
    ensures r.allowedSessions == Number(JsNumOr(e.allowedSessions, 0))
    ensures r.attendedSessions == Number(JsNumOr(e.attendedSessions, 0))
    ensures r.isOverLimit == IsTrue(e.isOverLimit)
    ensures !r.isPresent && r.remarks == Some("")
  {
    Row(e.studentId, e.studentName, e.rollNo, e.studentEmail,
      Number(JsNumOr(e.attendedSessions, 0)), Number(JsNumOr(e.allowedSessions, 0)),
      IsTrue(e.isOverLimit), false, Some(""))
  }

  /** The roster of a session whose attendance has not been taken: one
      fresh row per eligible student, in the server's order. */
  function InitRoster(eligible: seq<Eligible>): (rows: seq<Row>)
    ensures |rows| == |eligible|
    ensures forall i :: 0 <= i < |eligible| ==> rows[i] == FreshRow(eligible[i])
  {
    seq(|eligible|, i requires 0 <= i < |eligible| => FreshRow(eligible[i]))
  }

  /** A fresh roster starts with nobody present. */
  lemma InitRosterAllAbsent(eligible: seq<Eligible>)
    ensures PresentCount(InitRoster(eligible)) == 0
    ensures AbsentCount(InitRoster(eligible)) == |eligible|
  {
    UniformCount(InitRoster(eligible), false);
  }

  /** `records.find(r => r.studentId === id)`: the first record of the
      student, if any. */
  function FindRecord(records: seq<Record>, id: string): (r: Option<Record>)
    ensures r.None? <==> forall k :: 0 <= k < |records| ==> records[k].studentId != id
    ensures r.Some? ==> r.value.studentId == id
    ensures r.Some? ==> exists k :: 0 <= k < |records| && records[k] == r.value && (forall j :: 0 <= j < k ==> records[j].studentId != id)
  {
    if |records| == 0 then None
    else if records[0].studentId == id then Some(records[0])
    else
      var r := FindRecord(records[1..], id);
      if r.Some? then
        var k :| 0 <= k < |records[1..]| && records[1..][k] == r.value &&
          r.value.studentId == id && forall j :: 0 <= j < k ==> records[1..][j].studentId != id;
        assert records[k + 1] == r.value;
        r
      else r
  }

  /** Records appended after the list do not change which record is found
      when the list already holds one for the student, or when none of
      them is for the student. */
  lemma {:induction false} FindRecordAppend(records: seq<Record>, extra: seq<Record>, id: string)
    requires FindRecord(records, id).Some? || forall k :: 0 <= k < |extra| ==> extra[k].studentId != id
    ensures FindRecord(records + extra, id) == FindRecord(records, id)
  {
    if |records| == 0 {
      assert records + extra == extra;
    } else {
      assert (records + extra)[0] == records[0];
      assert (records + extra)[1..] == records[1..] + extra;
      if records[0].studentId != id {
        FindRecordAppend(records[1..], extra, id);
      }
    }
  }

  /** The row of one eligible student in edit mode: mark and remarks from
      the student's first record, absent with empty remarks without one;
      everything else from the eligible entry. */
  function MergedRow(e: Eligible, records: seq<Record>): (r: Row)
    ensures r.studentId == e.studentId && r.studentName == e.studentName
    ensures r.rollNo == e.rollNo && r.studentEmail == e.studentEmail
    ensures r.attendedSessions == e.attendedSessions && r.allowedSessions == e.allowedSessions
    ensures r.isOverLimit == IsTrue(e.isOverLimit)
    ensures FindRecord(records, e.studentId).Some? ==>
      r.isPresent == FindRecord(records, e.studentId).value.isPresent
      && r.remarks == FindRecord(records, e.studentId).value.remarks
    ensures FindRecord(records, e.studentId).None? ==> !r.isPresent && r.remarks == Some("")
  {
    var rec := FindRecord(records, e.studentId);
    Row(e.studentId, e.studentName, e.rollNo, e.studentEmail,
      e.attendedSessions, e.allowedSessions, IsTrue(e.isOverLimit),
      if rec.Some? then rec.value.isPresent else false,
      if rec.Some? then rec.value.remarks else Some(""))
  }

  /** The edit-mode roster: the eligible list, in its order, each student
      merged with their stored record. */
  function Merge(eligible: seq<Eligible>, records: seq<Record>): (rows: seq<Row>)
    ensures |rows| == |eligible|
    ensures forall i :: 0 <= i < |eligible| ==> rows[i] == MergedRow(eligible[i], records)
  {
    seq(|eligible|, i requires 0 <= i < |eligible| => MergedRow(eligible[i], records))
  }

  /** Records of students that are not eligible never reach the roster:
      the merge does not see them. */
  lemma MergeIgnoresStrangers(eligible: seq<Eligible>, records: seq<Record>, strangers: seq<Record>)
    requires forall k, i :: 0 <= k < |strangers| && 0 <= i < |eligible| ==>
      strangers[k].studentId != eligible[i].studentId
    ensures Merge(eligible, records + strangers) == Merge(eligible, records)
  {
    forall i | 0 <= i < |eligible|
      ensures MergedRow(eligible[i], records + strangers) == MergedRow(eligible[i], records)
    {
      FindRecordAppend(records, strangers, eligible[i].studentId);
    }
  }

  /** A later duplicate record of a student is ignored: the first one wins. */
  lemma MergeFirstRecordWins(eligible: seq<Eligible>, records: seq<Record>, dup: Record)
    requires FindRecord(records, dup.studentId).Some?
    ensures Merge(eligible, records + [dup]) == Merge(eligible, records)
  {
    forall i | 0 <= i < |eligible|
      ensures MergedRow(eligible[i], records + [dup]) == MergedRow(eligible[i], records)
    {
      FindRecordAppend(records, [dup], eligible[i].studentId);
    }
  }

  /** With no stored records, edit mode sends the same marks and remarks
      as a fresh roster: everybody absent with empty remarks. */
  lemma MergeWithoutRecordsIsFresh(eligible: seq<Eligible>)
    ensures Payload(Merge(eligible, [])) == Payload(InitRoster(eligible))
  {
    PayloadStripsDisplayFields(Merge(eligible, []), InitRoster(eligible));
  }

  /** A stored mark for an eligible student shows up in the payload of the
      edit-mode roster unchanged, at the student's place. */
  lemma StoredMarkIsResubmitted(eligible: seq<Eligible>, records: seq<Record>, i: int)
    requires 0 <= i < |eligible|
    requires FindRecord(records, eligible[i].studentId).Some?
    ensures Payload(Merge(eligible, records))[i] ==
      var rec := FindRecord(records, eligible[i].studentId).value;
      Entry(rec.studentId, rec.isPresent, rec.remarks)
  {
  }

  datatype Mode = Initial | New | Edit

  /** The state behind the page: the mode, the roster, and whether the
      spinner is shown instead of it. */
  datatype Page = Page(mode: Mode, students: seq<Row>, loading: bool)

  function InitialPage(): (p: Page)
    ensures p.mode == Initial && p.students == [] && p.loading
  {
    Page(Initial, [], true)
  }

  /** The eligibility response of a new attendance. On failure only a
      message is shown: the spinner stays. */
  function LoadEligible(p: Page, eligible: Fetch<seq<Eligible>>): (q: Page)
    ensures eligible.Failed? ==> q == p
    ensures eligible.Ok? ==> q == p.(students := InitRoster(eligible.body), loading := false)
  {
    match eligible
    case Ok(data) => p.(students := InitRoster(data), loading := false)
    case Failed => p
  }

  /** The stored attendance of a session whose attendance was taken.
      `stored` is the session body's `attendanceRecords` (None when the
      body or the list is missing); the eligibility call is made only
      when they exist. Either call failing leaves the page as it was. */
  function LoadExisting(p: Page, stored: Fetch<Option<seq<Record>>>, eligible: Fetch<seq<Eligible>>): (q: Page)
    ensures stored.Failed? ==> q == p
    ensures stored.Ok? && stored.body.None? ==> q == p.(loading := false)
    ensures stored.Ok? && stored.body.Some? && eligible.Failed? ==> q == p
    ensures stored.Ok? && stored.body.Some? && eligible.Ok? ==>
      q == Page(Edit, Merge(eligible.body, stored.body.value), false)
  {
    match stored
    case Failed => p
    case Ok(None) => p.(loading := false)
    case Ok(Some(records)) =>
      match eligible
      case Failed => p
      case Ok(data) => Page(Edit, Merge(data, records), false)
  }

  /** The page after the session itself has loaded: its attendance flag
      picks the edit flow or the new flow. */
  function LoadSession(attendanceTaken: bool, stored: Fetch<Option<seq<Record>>>, eligible: Fetch<seq<Eligible>>): (q: Page)
    ensures attendanceTaken ==> q == LoadExisting(InitialPage(), stored, eligible)
    ensures !attendanceTaken ==> q == LoadEligible(InitialPage().(mode := New), eligible)
    ensures !attendanceTaken ==> q.mode == New
    ensures !attendanceTaken && eligible.Ok? ==> q == Page(New, InitRoster(eligible.body), false)
    ensures !attendanceTaken && eligible.Ok? ==>
      !q.loading && PresentCount(q.students) == 0 && |q.students| == |eligible.body|
    ensures !attendanceTaken && eligible.Failed? ==> q.loading
  {
    if attendanceTaken then LoadExisting(InitialPage(), stored, eligible)
    else
      match eligible
      case Ok(data) =>
        InitRosterAllAbsent(data);
        LoadEligible(InitialPage().(mode := New), eligible)
      case Failed => LoadEligible(InitialPage().(mode := New), eligible)
  }

  /** `markAll(status)`: marking everybody present needs confirmation and
      declining keeps the roster; marking everybody absent never asks. */
  function MarkAllStudents(rows: seq<Row>, status: bool, confirmed: bool): (r: seq<Row>)
    ensures status && !confirmed ==> r == rows
    ensures !status || confirmed ==> r == MarkAll(rows, status)
  {
    if status && !confirmed then rows else MarkAll(rows, status)
  }

  /** Confirmed or not, mark-all never produces a roster that is neither
      the old one nor the uniform one; repeating it changes nothing more. */
  lemma MarkAllStudentsIdempotent(rows: seq<Row>, status: bool, confirmed: bool)
    ensures MarkAllStudents(MarkAllStudents(rows, status, confirmed), status, confirmed)
      == MarkAllStudents(rows, status, confirmed)
    ensures !status ==> PresentCount(MarkAllStudents(rows, status, confirmed)) == 0
  {
    MarkAllIdempotent(rows, status);
    MarkAllCounts(rows, status);
  }

  /** The warning banner: some present student is over the limit. */
  predicate OverLimitWarning(rows: seq<Row>) {
    exists i :: 0 <= i < |rows| && rows[i].isOverLimit && rows[i].isPresent
  }

  /** The banner appears once an absent over-limit student is confirmed
      present, and no fresh roster shows it, whoever is eligible. */
  lemma ConfirmedOverLimitShowsWarning(rows: seq<Row>, k: int)
    requires 0 <= k < |rows| && !rows[k].isPresent && rows[k].isOverLimit
    ensures OverLimitWarning(Toggle(rows, rows[k].studentId, true))
    ensures forall eligible :: !OverLimitWarning(InitRoster(eligible))
  {
    var r := Toggle(rows, rows[k].studentId, true);
    assert r[k].isOverLimit && r[k].isPresent;
    forall eligible: seq<Eligible>
      ensures !OverLimitWarning(InitRoster(eligible))
    {
      var roster := InitRoster(eligible);
      forall i | 0 <= i < |roster|
        ensures !roster[i].isPresent
      {
        assert roster[i] == FreshRow(eligible[i]);
      }
    }
  }

  /** The body of the save request: every row, even for an empty roster. */
  function SubmitRequest(sessionId: string, rows: seq<Row>): (s: Submission)
    ensures s.sessionId == sessionId
    ensures |s.attendanceList| == |rows|
    ensures forall i :: 0 <= i < |rows| ==>
      s.attendanceList[i] == Entry(rows[i].studentId, rows[i].isPresent, rows[i].remarks)
  {
    Submission(sessionId, Payload(rows))
  }

  /** The page after the save request: success leaves for the attendance
      list (None); failure keeps the roster as it was. */
  function AfterSubmit(p: Page, succeeded: bool): (q: Option<Page>)
    ensures succeeded <==> q.None?
    ensures !succeeded ==> q == Some(p)
  {
    if succeeded then None else Some(p)
  }
}
