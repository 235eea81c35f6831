/** A student's attendance history: picking a student from the eligible
    list through a search box, fetching that student's logs for a month,
    and the present / absent / total summary of the fetched logs. */
module AttendanceHistory {
  import opened Common
  import opened Text
  import opened Search
  import opened Roster
  import FormComponents

  /** `loadStudents`: the response, or `[]` when it is null; a failed call
      leaves the list as it was. */
  function LoadStudents(current: seq<Eligible>, response: Fetch<Option<seq<Eligible>>>): (r: seq<Eligible>)
    ensures response.Failed? ==> r == current
    ensures response.Ok? ==> r == (if response.body.Some? then response.body.value else [])
  {
    match response
    case Failed => current
    case Ok(body) => if body.Some? then body.value else []
  }

  function StudentFields(s: Eligible): seq<Option<string>> {
    [s.studentName, Some(RollNoText(s.rollNo)), s.studentEmail]
  }

  predicate StudentHit(term: string, s: Eligible) {
    FieldHit(term, s.studentName) || FieldHit(term, Some(RollNoText(s.rollNo))) || FieldHit(term, s.studentEmail)
  }

  /** The page's hit test is the search box's test on its fields. */
  lemma StudentHitMatches(term: string)
    ensures forall s :: StudentHit(term, s) == Matches(term, StudentFields(s))
  {
  }

  /** `filteredStudents`: name, roll number as text, or e-mail. */
  function FilteredStudents(students: seq<Eligible>, term: string): (r: seq<Eligible>)
    ensures term == "" ==> r == students
    ensures term != "" ==> forall s :: s in r ==> s in students && StudentHit(term, s)
    ensures forall s :: s in students && StudentHit(term, s) ==> s in r
    ensures term != "" ==> |r| == Count(students, (s: Eligible) => StudentHit(term, s))
    ensures Subseq(r, students)
  {
    StudentHitMatches(term);
    SearchCount(students, term, StudentFields, (s: Eligible) => StudentHit(term, s));
    SearchList(students, term, StudentFields)
  }

  /** Typing a student's numeric roll number finds that student. */
  lemma RollNumberFindsStudent(students: seq<Eligible>, s: Eligible, n: int)
    requires s in students && s.rollNo == RollNumber(n) && n != 0
    ensures s in FilteredStudents(students, IntToDecimal(n))
  {
    FieldHitSelf(IntToDecimal(n));
    assert RollNoText(s.rollNo) == IntToDecimal(n);
  }

  /** A student with the number 0 as roll number cannot be found by typing
      "0" unless another field contains it: zero is falsy and reads as "". */
  lemma ZeroRollNumberIsBlank(s: Eligible)
    requires s.rollNo == RollNumber(0)
    ensures !FieldHit("0", Some(RollNoText(s.rollNo)))
  {
    MissingFieldHit("0");
  }

  /** One attendance log. */
  datatype Log = Log(sessionId: string, status: Option<string>)

  /** The summary cards. */
  datatype Stats = Stats(present: nat, absent: nat, total: nat)

  predicate IsPresent(l: Log) {
    l.status == Some("PRESENT")
  }

  predicate IsAbsent(l: Log) {
    l.status == Some("ABSENT")
  }

  function StatsOf(logs: seq<Log>): (st: Stats)
    ensures st.total == |logs|
    ensures st.present + st.absent <= st.total
    ensures st.present == |Filter(logs, IsPresent)| && st.absent == |Filter(logs, IsAbsent)|
  {
    CountDisjoint(logs, IsPresent, IsAbsent);
    Stats(Count(logs, IsPresent), Count(logs, IsAbsent), |logs|)
  }

  /** The part of the component the log fetch touches. */
  datatype History = History(selectedStudent: string, logs: seq<Log>, stats: Stats, loading: bool)

  function InitialHistory(): (h: History)
    ensures h.selectedStudent == "" && h.logs == [] && !h.loading
    ensures h.stats == Stats(0, 0, 0)
  {
    History("", [], Stats(0, 0, 0), false)
  }

  /** The Filter Logs button: `disabled={!selectedStudent || loading}`. */
  predicate FilterDisabled(h: History) {
    FormComponents.ButtonDisabled(Some(h.selectedStudent == "" || h.loading), None)
  }

  /** `fetchLogs`: nothing without a selected student. A list response
      replaces the logs and the stats; a null response throws on
      `response.filter` after the logs were set to `[]`, so the logs end
      empty and the stats keep their old values, as after a failed call. */
  function FetchLogs(h: History, response: Fetch<Option<seq<Log>>>): (r: History)
    ensures h.selectedStudent == "" ==> r == h
    ensures h.selectedStudent != "" ==> !r.loading && r.selectedStudent == h.selectedStudent
    ensures h.selectedStudent != "" && response == Ok(None) ==> r.logs == [] && r.stats == h.stats
    ensures h.selectedStudent != "" && response.Failed? ==> r.logs == [] && r.stats == h.stats
    ensures h.selectedStudent != "" && response.Ok? && response.body.Some? ==>
      r.logs == response.body.value && r.stats == StatsOf(response.body.value) && r.stats.total == |r.logs|
  {
    if h.selectedStudent == "" then h
    else match response
      case Ok(Some(logs)) => History(h.selectedStudent, logs, StatsOf(logs), false)
      case _ => History(h.selectedStudent, [], h.stats, false)
  }

  /** After any fetch the cards add up: present and absent never exceed
      the total, and the total is the number of logs whenever logs are
      shown (the cards are hidden for an empty list). */
  lemma StatsAddUp(h: History, response: Fetch<Option<seq<Log>>>)
    requires h.stats.present + h.stats.absent <= h.stats.total
    requires h.logs != [] ==> h.stats.total == |h.logs|
    ensures var r := FetchLogs(h, response);
      r.stats.present + r.stats.absent <= r.stats.total && (r.logs != [] ==> r.stats.total == |r.logs|)
  {
  }

  /** The button is disabled whenever `fetchLogs` would do nothing. */
  lemma DisabledWithoutStudent(h: History)
    requires h.selectedStudent == ""
    ensures FilterDisabled(h)
  {
  }

  /** The month selector's values, in order. */
  function MonthOptions(): (r: seq<int>)
    ensures |r| == 12
    ensures forall i, j :: 0 <= i < j < |r| ==> r[i] < r[j]
  {
    seq(12, i requires 0 <= i < 12 => i + 1)
  }

  /** The selector offers exactly the months 1 to 12, and choosing one
      sets the month the logs request names to that month: the select
      hands its option back as text and `onChange` reads it with
      `parseInt`. */
  lemma SelectedMonthReadsBack(m: int)
    ensures m in MonthOptions() <==> 1 <= m <= 12
    ensures m in MonthOptions() ==> ParseInt(IntToDecimal(m)) == Some(m)
  {
    if 1 <= m <= 12 {
      assert MonthOptions()[m - 1] == m;
    }
    ParseIntRoundTrip(m);
  }
}
