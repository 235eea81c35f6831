/** Class sessions: the session record shared by the sessions list and the
    attendance list, the search over it, the status-gated row actions and
    the edit form. */
module Sessions {
  import opened Common
  import opened Text
  import opened Search

  /** A class session as the list endpoint returns it; text fields may be
      missing. */
  datatype ClassSession = ClassSession(
    id: string,
    topic: Option<string>,
    sessionDate: Option<string>,
    startTime: Option<string>,
    endTime: Option<string>,
    description: Option<string>,
    meetingLink: Option<string>,
    meetingPassword: Option<string>,
    status: Option<string>,
    attendanceTaken: bool)

  /** The fields the sessions page searches, in the order it tests them. */
  function SearchFields(s: ClassSession): seq<Option<string>> {
    [s.topic, s.sessionDate, s.status, s.startTime]
  }

  /** The term occurs in the topic, date, status or start time. */
  predicate SessionHit(term: string, s: ClassSession) {
    FieldHit(term, s.topic) || FieldHit(term, s.sessionDate) || FieldHit(term, s.status) || FieldHit(term, s.startTime)
  }

  /** The page's hit test is the search box's test on its fields. */
  lemma SessionHitMatches(term: string)
    ensures forall s :: SessionHit(term, s) == Matches(term, SearchFields(s))
  {
  }

  /** The sessions page search box. */
  function FilteredSessions(sessions: seq<ClassSession>, term: string): (r: seq<ClassSession>)
    ensures term == "" ==> r == sessions
    ensures term != "" ==> forall s :: s in r ==> s in sessions && SessionHit(term, s)
    ensures forall s :: s in sessions && SessionHit(term, s) ==> s in r
    ensures term != "" ==> |r| == Count(sessions, (s: ClassSession) => SessionHit(term, s))
    ensures Subseq(r, sessions)
  {
    SessionHitMatches(term);
    SearchCount(sessions, term, SearchFields, (s: ClassSession) => SessionHit(term, s));
    SearchList(sessions, term, SearchFields)
  }

  /** The buttons of one row of the sessions table. */
  datatype SessionAction = View | Edit | Start | Complete | Cancel | Delete

  /** Whether the row of a session with this status offers the action. */
  predicate Offered(a: SessionAction, status: Option<string>) {
    match a
    case Start => status == Some("SCHEDULED")
    case Complete => status == Some("IN_PROGRESS")
    case Cancel => status == Some("SCHEDULED")
    case _ => true
  }

  /** The status a status action asks for. */
  function Target(a: SessionAction): (t: Option<string>)
    ensures t.Some? <==> a in {Start, Complete, Cancel}
  {
    match a
    case Start => Some("IN_PROGRESS")
    case Complete => Some("COMPLETED")
    case Cancel => Some("CANCELLED")
    case _ => None
  }

  /** Position of a status in the session lifecycle; terminal statuses are
      last. */
  function Stage(status: Option<string>): (n: nat)
    ensures n <= 2
    ensures n == 0 <==> status == Some("SCHEDULED")
    ensures n == 1 <==> status == Some("IN_PROGRESS")
  {
    if status == Some("SCHEDULED") then 0
    else if status == Some("IN_PROGRESS") then 1
    else 2
  }

  /** Every status button a row offers moves the session strictly forward
      in its lifecycle; nothing is offered once it is completed or
      cancelled. */
  lemma OfferedActionsMoveForward(a: SessionAction, status: Option<string>)
    requires Offered(a, status) && Target(a).Some?
    ensures Stage(status) < Stage(Target(a))
    ensures status != Some("COMPLETED") && status != Some("CANCELLED")
  {
  }

  /** No status offers both Start and Complete, and Complete never comes
      with Cancel. */
  lemma StartAndCompleteExclusive(status: Option<string>)
    ensures !(Offered(Start, status) && Offered(Complete, status))
    ensures !(Offered(Complete, status) && Offered(Cancel, status))
    ensures Offered(Start, status) <==> Offered(Cancel, status)
  {
  }

  /** The session form; every field is text. */
  datatype SessionForm = SessionForm(
    sessionDate: string,
    startTime: string,
    endTime: string,
    topic: string,
    description: string,
    meetingLink: string,
    meetingPassword: string)

  /** The blank form of a new session. */
  function CreateForm(): (f: SessionForm)
    ensures f.topic == "" && f.sessionDate == "" && f.startTime == "" && f.endTime == ""
    ensures f.description == "" && f.meetingLink == "" && f.meetingPassword == ""
  {
    SessionForm("", "", "", "", "", "", "")
  }

  /** The form opened on an existing session: each field is copied, a
      missing one becomes "". */
  function EditForm(s: ClassSession): (f: SessionForm)
    ensures f.topic == OrEmpty(s.topic) && f.description == OrEmpty(s.description)
    ensures f.sessionDate == OrEmpty(s.sessionDate)
    ensures f.startTime == OrEmpty(s.startTime) && f.endTime == OrEmpty(s.endTime)
    ensures f.meetingLink == OrEmpty(s.meetingLink) && f.meetingPassword == OrEmpty(s.meetingPassword)
  {
    SessionForm(OrEmpty(s.sessionDate), OrEmpty(s.startTime), OrEmpty(s.endTime), OrEmpty(s.topic),
      OrEmpty(s.description), OrEmpty(s.meetingLink), OrEmpty(s.meetingPassword))
  }

  /** The fields of a session as the form would send them back. */
  function AsForm(s: ClassSession): SessionForm
    requires s.topic.Some? && s.sessionDate.Some? && s.startTime.Some? && s.endTime.Some?
    requires s.description.Some? && s.meetingLink.Some? && s.meetingPassword.Some?
  {
    SessionForm(s.sessionDate.value, s.startTime.value, s.endTime.value, s.topic.value,
      s.description.value, s.meetingLink.value, s.meetingPassword.value)
  }

  /** Opening and saving an untouched edit form sends back exactly the
      session's own values when it has them all. */
  lemma EditFormRoundTrip(s: ClassSession)
    requires s.topic.Some? && s.sessionDate.Some? && s.startTime.Some? && s.endTime.Some?
    requires s.description.Some? && s.meetingLink.Some? && s.meetingPassword.Some?
    ensures EditForm(s) == AsForm(s)
  {
  }

  /** Editing a session that has none of its text fields gives the same
      form as creating one. */
  lemma EditOfBlankIsCreate(id: string, status: Option<string>, taken: bool)
    ensures EditForm(ClassSession(id, None, None, None, None, None, None, None, status, taken)) == CreateForm()
  {
  }
}
