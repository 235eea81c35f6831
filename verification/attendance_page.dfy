/** The attendance list page: a searchable list of sessions, and a modal
    that takes attendance for one of them. Unlike the full-page screen, the
    modal works out the over-limit flag itself (the server flag, or the
    attended count having reached the allowance) and marks every student
    who is not over the limit present from the start. */
module AttendancePage {
  import opened Common
  import opened Search
  import opened Roster
  import opened Sessions
  import AttendanceTaking

  /** `s.isOverLimit || (s.attendedSessions >= s.allowedSessions)`, with
      JavaScript's comparison of possibly missing numbers. */
  predicate AtThreshold(e: Eligible) {
    IsTrue(e.isOverLimit) || JsAtLeast(e.attendedSessions, e.allowedSessions)
  }

  /** The modal row of one eligible student. */
  function OpenRow(e: Eligible): (r: Row)
    ensures r.studentId == e.studentId && r.studentName == e.studentName
    ensures r.rollNo == e.rollNo && r.studentEmail == e.studentEmail
    ensures r.attendedSessions == e.attendedSessions && r.allowedSessions == e.allowedSessions
    ensures r.isOverLimit <==> IsTrue(e.isOverLimit) || JsAtLeast(e.attendedSessions, e.allowedSessions)
    ensures r.isPresent <==> !r.isOverLimit
    ensures r.remarks == Some("")
  {
    var over := AtThreshold(e);
    Row(e.studentId, e.studentName, e.rollNo, e.studentEmail,
      e.attendedSessions, e.allowedSessions, over, !over, Some(""))
  }

  /** The roster the modal opens with: one row per eligible student, in
      order. */
  function OpenRoster(eligible: seq<Eligible>): (rows: seq<Row>)
    ensures |rows| == |eligible|
    ensures forall i :: 0 <= i < |eligible| ==> rows[i] == OpenRow(eligible[i])
  {
    seq(|eligible|, i requires 0 <= i < |eligible| => OpenRow(eligible[i]))
  }

  /** Nobody starts both present and over the limit, so the modal's roster
      never opens with a row that would have needed confirmation. */
  lemma OpenRosterNeedsNoConfirmation(eligible: seq<Eligible>)
    ensures forall i :: 0 <= i < |eligible| ==>
      OpenRoster(eligible)[i].isPresent != OpenRoster(eligible)[i].isOverLimit
  {
  }

  /** The modal's over-limit test is at least as strict as the full-page
      screen's: whatever that screen flags, the modal flags too. */
  lemma ModalFlagsAtLeastAsMuch(eligible: seq<Eligible>)
    ensures forall i :: 0 <= i < |eligible| ==>
      AttendanceTaking.InitRoster(eligible)[i].isOverLimit ==> OpenRoster(eligible)[i].isOverLimit
  {
  }

  /** The two screens disagree on the same student: not flagged by the
      server but with all 8 of 8 sessions used, the full page shows them
      absent and not over the limit, the modal over the limit; and a
      student well under the limit starts absent on the full page but
      present in the modal. */
  lemma ScreensDisagree()
    ensures var e := Eligible("s1", None, NoRollNo, None, Number(8), Number(8), Some(false));
      !AttendanceTaking.FreshRow(e).isOverLimit && OpenRow(e).isOverLimit
    ensures var e := Eligible("s2", None, NoRollNo, None, Number(2), Number(8), Some(false));
      !AttendanceTaking.FreshRow(e).isPresent && OpenRow(e).isPresent
  {
  }

  /** A student whose attended count is missing is never over the limit by
      count: the comparison with `undefined` is false. */
  lemma MissingAttendedNotAtThreshold(e: Eligible)
    requires e.attendedSessions.Undefined? && !IsTrue(e.isOverLimit)
    ensures !OpenRow(e).isOverLimit && OpenRow(e).isPresent
  {
  }

  /** The counts of the modal as it opens: present are exactly the
      students under the threshold. */
  lemma {:induction false} OpenCounts(eligible: seq<Eligible>)
    ensures PresentCount(OpenRoster(eligible)) == Count(eligible, (e: Eligible) => !AtThreshold(e))
    ensures PresentCount(OpenRoster(eligible)) + AbsentCount(OpenRoster(eligible)) == |eligible|
  {
    CountsCoverRoster(OpenRoster(eligible));
    if |eligible| > 0 {
      OpenCounts(eligible[1..]);
      assert OpenRoster(eligible)[1..] == OpenRoster(eligible[1..]);
    }
  }

  /** The three-student example: one of them over the limit by the server
      flag starts absent, the other two present. */
  lemma ThreeStudentExample()
    ensures var rows := OpenRoster([
        Eligible("S1", Some("Ana"), NoRollNo, None, Number(2), Number(8), Some(false)),
        Eligible("S2", Some("Ben"), NoRollNo, None, Number(8), Number(8), Some(true)),
        Eligible("S3", Some("Cy"), NoRollNo, None, Number(0), Number(8), Some(false))]);
      rows[0].isPresent && !rows[1].isPresent && rows[2].isPresent
      && PresentCount(rows) == 2 && AbsentCount(rows) == 1
  {
    var rows := OpenRoster([
        Eligible("S1", Some("Ana"), NoRollNo, None, Number(2), Number(8), Some(false)),
        Eligible("S2", Some("Ben"), NoRollNo, None, Number(8), Number(8), Some(true)),
        Eligible("S3", Some("Cy"), NoRollNo, None, Number(0), Number(8), Some(false))]);
    assert rows[1..][1..][1..] == [];
  }

  /** Mark all present / absent: no confirmation, remarks and flags kept. */
  lemma MarkAllInModal(rows: seq<Row>, present: bool)
    ensures PresentCount(MarkAll(rows, present)) == if present then |rows| else 0
    ensures forall i :: 0 <= i < |rows| ==>
      MarkAll(rows, present)[i].remarks == rows[i].remarks
      && MarkAll(rows, present)[i].isOverLimit == rows[i].isOverLimit
    ensures MarkAll(MarkAll(rows, present), present) == MarkAll(rows, present)
  {
    MarkAllCounts(rows, present);
  }

  /** The modal's submit: nothing without a selected session, otherwise the
      session's id and the flattened roster. */
  function SubmitAttendance(selected: Option<ClassSession>, rows: seq<Row>): (s: Option<Submission>)
    ensures selected.None? <==> s.None?
    ensures s.Some? ==> s.value.sessionId == selected.value.id && |s.value.attendanceList| == |rows|
    ensures s.Some? ==> forall i :: 0 <= i < |rows| ==>
      s.value.attendanceList[i] == Entry(rows[i].studentId, rows[i].isPresent, rows[i].remarks)
  {
    match selected
    case None => None
    case Some(session) => Some(Submission(session.id, Payload(rows)))
  }

  /** The two screens send the same kind of body: for the same session id
      and roster, the modal's request is the full page's. */
  lemma SameSubmissionAsFullPage(session: ClassSession, rows: seq<Row>)
    ensures SubmitAttendance(Some(session), rows) == Some(AttendanceTaking.SubmitRequest(session.id, rows))
  {
  }

  /** The fields the search box looks at. */
  function AttendanceFields(s: ClassSession): seq<Option<string>> {
    [s.topic, s.sessionDate, s.status]
  }

  /** The term occurs in the topic, date or status (not the start time,
      unlike the sessions page). */
  predicate AttendanceHit(term: string, s: ClassSession) {
    FieldHit(term, s.topic) || FieldHit(term, s.sessionDate) || FieldHit(term, s.status)
  }

  /** The page's hit test is the search box's test on its fields. */
  lemma AttendanceHitMatches(term: string)
    ensures forall s :: AttendanceHit(term, s) == Matches(term, AttendanceFields(s))
  {
  }

  /** The session search of the attendance list. */
  function FilteredSessions(sessions: seq<ClassSession>, term: string): (r: seq<ClassSession>)
    ensures term == "" ==> r == sessions
    ensures term != "" ==> forall s :: s in r ==> s in sessions && AttendanceHit(term, s)
    ensures forall s :: s in sessions && AttendanceHit(term, s) ==> s in r
    ensures term != "" ==> |r| == Count(sessions, (s: ClassSession) => AttendanceHit(term, s))
    ensures Subseq(r, sessions)
  {
    AttendanceHitMatches(term);
    SearchCount(sessions, term, AttendanceFields, (s: ClassSession) => AttendanceHit(term, s));
    SearchList(sessions, term, AttendanceFields)
  }

  /** Whatever this search keeps, the sessions page search keeps as well. */
  lemma AttendanceSearchWithinSessionsSearch(sessions: seq<ClassSession>, term: string)
    ensures forall s :: s in FilteredSessions(sessions, term) ==> s in Sessions.FilteredSessions(sessions, term)
  {
  }
}
