/** The attendance roster both attendance screens work on: the eligible
    student as the server reports it, the prior attendance record of an
    already-marked session, the working row one per student, the row
    operations (toggle with the over-limit gate, remarks, mark-all), the
    derived counts and the flat submission payload. */
module Roster {
  import opened Common
  import opened Text
  import opened Search

  /** A roll number arrives as text or as a number, or not at all. */
  datatype RollNo = NoRollNo | RollText(text: string) | RollNumber(n: int)

  /** `(rollNo || '').toString()`: a missing, empty or zero roll number
      reads as the empty string. */
  function RollNoText(r: RollNo): (t: string)
    ensures r.NoRollNo? ==> t == ""
    ensures r.RollText? ==> t == r.text
    ensures r.RollNumber? && r.n != 0 ==> ParseInt(t) == Some(r.n)
    ensures r.RollNumber? && r.n == 0 ==> t == ""
  {
    match r
    case NoRollNo => ""
    case RollText(s) => s
    case RollNumber(n) =>
      if n == 0 then ""
      else
        ParseIntRoundTrip(n);
        IntToDecimal(n)
  }

  /** A student the eligibility endpoint reports for the current period. */
  datatype Eligible = Eligible(
    studentId: string,
    studentName: Option<string>,
    rollNo: RollNo,
    studentEmail: Option<string>,
    attendedSessions: JsNum,
    allowedSessions: JsNum,
    isOverLimit: Option<bool>)

  /** A mark already stored for a session whose attendance was taken. */
  datatype Record = Record(studentId: string, isPresent: bool, remarks: Option<string>)

  /** One working row of the roster. `remarks` may be missing when it was
      copied from a stored record that had none. */
  datatype Row = Row(
    studentId: string,
    studentName: Option<string>,
    rollNo: RollNo,
    studentEmail: Option<string>,
    attendedSessions: JsNum,
    allowedSessions: JsNum,
    isOverLimit: bool,
    isPresent: bool,
    remarks: Option<string>)

  /** One entry of the submission: only the identifying and editable fields. */
  datatype Entry = Entry(studentId: string, isPresent: bool, remarks: Option<string>)

  /** The body posted to the attendance endpoint. */
  datatype Submission = Submission(sessionId: string, attendanceList: seq<Entry>)

  function Ids(rows: seq<Row>): (ids: seq<string>)
    ensures |ids| == |rows|
    ensures forall i :: 0 <= i < |rows| ==> ids[i] == rows[i].studentId
  {
    seq(|rows|, i requires 0 <= i < |rows| => rows[i].studentId)
  }

  /** The over-limit gate of one row: an absent row that is over its limit
      turns present only with confirmation; every other row flips. */
  function ToggleRow(r: Row, confirmed: bool): (t: Row)
    ensures t == r.(isPresent := t.isPresent)
    ensures t.isPresent != r.isPresent <==> (r.isPresent || !r.isOverLimit || confirmed)
  {
    if !r.isPresent && r.isOverLimit && !confirmed then r
    else r.(isPresent := !r.isPresent)
  }

  /** Clicking the present/absent control of one student. The confirmation
      answer is an input (the browser's confirm dialog). */
  function Toggle(rows: seq<Row>, id: string, confirmed: bool): (r: seq<Row>)
    ensures |r| == |rows|
    ensures forall i :: 0 <= i < |rows| && rows[i].studentId != id ==> r[i] == rows[i]
    ensures forall i :: 0 <= i < |rows| ==> r[i] == rows[i].(isPresent := r[i].isPresent)
    ensures forall i :: 0 <= i < |rows| && rows[i].studentId == id ==>
      (r[i].isPresent != rows[i].isPresent <==> (rows[i].isPresent || !rows[i].isOverLimit || confirmed))
  {
    seq(|rows|, i requires 0 <= i < |rows| =>
      if rows[i].studentId == id then ToggleRow(rows[i], confirmed) else rows[i])
  }

  /** Replacing the remarks of one student. */
  function SetRemarks(rows: seq<Row>, id: string, text: string): (r: seq<Row>)
    ensures |r| == |rows|
    ensures forall i :: 0 <= i < |rows| && rows[i].studentId != id ==> r[i] == rows[i]
    ensures forall i :: 0 <= i < |rows| && rows[i].studentId == id ==>
      r[i] == rows[i].(remarks := Some(text))
  {
    seq(|rows|, i requires 0 <= i < |rows| =>
      if rows[i].studentId == id then rows[i].(remarks := Some(text)) else rows[i])
  }

  /** Setting every row present (or absent); nothing else changes. */
  function MarkAll(rows: seq<Row>, present: bool): (r: seq<Row>)
    ensures |r| == |rows|
    ensures forall i :: 0 <= i < |rows| ==> r[i] == rows[i].(isPresent := present)
  {
    seq(|rows|, i requires 0 <= i < |rows| => rows[i].(isPresent := present))
  }

  /** `rows.filter(s => s.isPresent).length`. */
  function PresentCount(rows: seq<Row>): (n: nat)
    ensures n <= |rows|
  {
    if |rows| == 0 then 0 else (if rows[0].isPresent then 1 else 0) + PresentCount(rows[1..])
  }

  /** `rows.filter(s => !s.isPresent).length`. */
  function AbsentCount(rows: seq<Row>): (n: nat)
    ensures n <= |rows|
  {
    if |rows| == 0 then 0 else (if rows[0].isPresent then 0 else 1) + AbsentCount(rows[1..])
  }

  /** The flat list posted on submit: one entry per row, in roster order. */
  function Payload(rows: seq<Row>): (p: seq<Entry>)
    ensures |p| == |rows|
    ensures forall i :: 0 <= i < |rows| ==>
      p[i].studentId == rows[i].studentId && p[i].isPresent == rows[i].isPresent
      && p[i].remarks == rows[i].remarks
  {
    seq(|rows|, i requires 0 <= i < |rows| =>
      Entry(rows[i].studentId, rows[i].isPresent, rows[i].remarks))
  }

  /** Every row is either counted present or counted absent. */
  lemma {:induction false} CountsCoverRoster(rows: seq<Row>)
    ensures PresentCount(rows) + AbsentCount(rows) == |rows|
  {
    if |rows| > 0 {
      CountsCoverRoster(rows[1..]);
    }
  }

  /** The present count of a roster whose rows are all present (or all
      absent). */
  lemma {:induction false} UniformCount(rows: seq<Row>, present: bool)
    requires forall i :: 0 <= i < |rows| ==> rows[i].isPresent == present
    ensures PresentCount(rows) == if present then |rows| else 0
    ensures AbsentCount(rows) == if present then 0 else |rows|
  {
    if |rows| > 0 {
      UniformCount(rows[1..], present);
    }
  }

  /** After marking everybody present the present count is the roster
      size; after marking everybody absent it is zero. */
  lemma MarkAllCounts(rows: seq<Row>, present: bool)
    ensures PresentCount(MarkAll(rows, present)) == if present then |rows| else 0
    ensures AbsentCount(MarkAll(rows, present)) == if present then 0 else |rows|
  {
    UniformCount(MarkAll(rows, present), present);
  }

  /** Marking all is idempotent, and its outcome does not depend on the
      rows' previous marks. */
  lemma MarkAllIdempotent(rows: seq<Row>, present: bool)
    ensures MarkAll(MarkAll(rows, present), present) == MarkAll(rows, present)
    ensures MarkAll(MarkAll(rows, !present), present) == MarkAll(rows, present)
  {
  }

  /** With confirmation given, toggling the same student twice restores
      the roster. */
  lemma ToggleTwice(rows: seq<Row>, id: string)
    ensures Toggle(Toggle(rows, id, true), id, true) == rows
  {
    var once := Toggle(rows, id, true);
    var twice := Toggle(once, id, true);
    assert forall i :: 0 <= i < |rows| ==> twice[i] == rows[i];
  }

  /** Declining the over-limit warning for a student who is absent and over
      the limit leaves the roster exactly as it was. */
  lemma DeclinedToggleIsNoOp(rows: seq<Row>, id: string)
    requires forall i :: 0 <= i < |rows| && rows[i].studentId == id ==>
      !rows[i].isPresent && rows[i].isOverLimit
    ensures Toggle(rows, id, false) == rows
  {
    var r := Toggle(rows, id, false);
    assert forall i :: 0 <= i < |rows| ==> r[i] == rows[i];
  }

  /** Marking a present student absent never needs confirmation: the
      answer to the dialog makes no difference. */
  lemma UnmarkNeverGated(rows: seq<Row>, id: string)
    requires forall i :: 0 <= i < |rows| && rows[i].studentId == id ==> rows[i].isPresent
    ensures Toggle(rows, id, false) == Toggle(rows, id, true)
  {
  }

  /** No operation of the roster touches the over-limit flag or the
      identity of a row: they keep the ids in order. */
  lemma OperationsKeepIdsAndFlags(rows: seq<Row>, id: string, confirmed: bool, text: string, present: bool)
    ensures Ids(Toggle(rows, id, confirmed)) == Ids(rows)
    ensures Ids(SetRemarks(rows, id, text)) == Ids(rows)
    ensures Ids(MarkAll(rows, present)) == Ids(rows)
    ensures forall i :: 0 <= i < |rows| ==>
      Toggle(rows, id, confirmed)[i].isOverLimit == rows[i].isOverLimit
      && SetRemarks(rows, id, text)[i].isOverLimit == rows[i].isOverLimit
      && MarkAll(rows, present)[i].isOverLimit == rows[i].isOverLimit
  {
  }

  /** Present count after changing one row. */
  lemma {:induction false} PresentCountUpdate(rows: seq<Row>, k: int, row: Row)
    requires 0 <= k < |rows|
    ensures PresentCount(rows[k := row]) ==
      PresentCount(rows) - (if rows[k].isPresent then 1 else 0) + (if row.isPresent then 1 else 0)
  {
    if k > 0 {
      assert rows[k := row][1..] == rows[1..][k - 1 := row];
      PresentCountUpdate(rows[1..], k - 1, row);
    } else {
      assert rows[k := row][1..] == rows[1..];
    }
  }

  /** When student ids are unique, a toggle that gets past the gate moves
      the present count by exactly one, up or down. */
  lemma ToggleMovesCountByOne(rows: seq<Row>, k: int, confirmed: bool)
    requires 0 <= k < |rows|
    requires forall i :: 0 <= i < |rows| && i != k ==> rows[i].studentId != rows[k].studentId
    requires rows[k].isPresent || !rows[k].isOverLimit || confirmed
    ensures PresentCount(Toggle(rows, rows[k].studentId, confirmed)) ==
      if rows[k].isPresent then PresentCount(rows) - 1 else PresentCount(rows) + 1
  {
    var r := Toggle(rows, rows[k].studentId, confirmed);
    assert r == rows[k := rows[k].(isPresent := !rows[k].isPresent)];
    PresentCountUpdate(rows, k, rows[k].(isPresent := !rows[k].isPresent));
  }

  /** The payload reports exactly as many present students as the roster
      shows, and its entries split into present and absent the same way. */
  lemma {:induction false} PayloadPresentCount(rows: seq<Row>)
    ensures Count(Payload(rows), (e: Entry) => e.isPresent) == PresentCount(rows)
    ensures Count(Payload(rows), (e: Entry) => !e.isPresent) == AbsentCount(rows)
  {
    if |rows| > 0 {
      PayloadPresentCount(rows[1..]);
      assert Payload(rows)[1..] == Payload(rows[1..]);
    }
  }

  /** The payload only depends on ids, marks and remarks: names, roll
      numbers, session counts and the over-limit flag never reach it. */
  lemma PayloadStripsDisplayFields(a: seq<Row>, b: seq<Row>)
    requires |a| == |b|
    requires forall i :: 0 <= i < |a| ==>
      a[i].studentId == b[i].studentId && a[i].isPresent == b[i].isPresent && a[i].remarks == b[i].remarks
    ensures Payload(a) == Payload(b)
  {
  }
}
