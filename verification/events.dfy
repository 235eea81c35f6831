/** The events page: the event form opened for a new or an existing event,
    the required-field check and the request the form sends, and the
    search box over the listed events. */
module Events {
  import opened Common
  import opened Text
  import opened Search

  /** An event as the list endpoint returns it. */
  datatype Event = Event(
    id: string,
    title: Option<string>,
    description: Option<string>,
    eventType: Option<string>,
    startDateTime: Option<string>,
    endDateTime: Option<string>,
    location: Option<string>,
    isOnline: Option<bool>,
    meetingLink: Option<string>,
    meetingPassword: Option<string>,
    imageUrl: Option<string>,
    bannerUrl: Option<string>,
    maxParticipants: Option<int>,
    isPublic: Option<bool>,
    isRegistrationOpen: Option<bool>,
    fee: Option<int>,
    status: Option<string>)

  /** The event form. Text inputs hold text; `maxParticipants` holds what
      its number input shows, "" for none. */
  datatype EventForm = EventForm(
    title: string,
    description: string,
    eventType: string,
    startDateTime: string,
    endDateTime: string,
    location: string,
    isOnline: bool,
    meetingLink: string,
    meetingPassword: string,
    imageUrl: string,
    bannerUrl: string,
    maxParticipants: string,
    isPublic: bool,
    isRegistrationOpen: bool,
    fee: int)

  /** The form of a new event: a workshop, free, public and open for
      registration. */
  function CreateForm(): (f: EventForm)
    ensures f.eventType == "WORKSHOP" && f.fee == 0
    ensures f.isPublic && f.isRegistrationOpen && !f.isOnline
    ensures f.title == "" && f.startDateTime == "" && f.endDateTime == "" && f.maxParticipants == ""
  {
    EventForm("", "", "WORKSHOP", "", "", "", false, "", "", "", "", "", true, true, 0)
  }

  /** `x ? x.slice(0, 16) : ''`: a stored date-time cut to the minute for
      the date-time input. */
  function DateTimeInput(x: Option<string>): (t: string)
    ensures |t| <= 16 && t <= OrEmpty(x)
    ensures |OrEmpty(x)| >= 16 ==> |t| == 16
  {
    Take(OrEmpty(x), 16)
  }

  /** The form opened on an existing event: text fields with `|| ''`, the
      three flags with `??` (so a stored `false` survives), the fee with
      `|| 0`. */
  function EditForm(e: Event): (f: EventForm)
    ensures f.title == OrEmpty(e.title) && f.eventType == OrEmpty(e.eventType)
    ensures f.startDateTime == DateTimeInput(e.startDateTime) && f.endDateTime == DateTimeInput(e.endDateTime)
    ensures f.isOnline == Coalesce(e.isOnline, false)
    ensures f.isPublic == Coalesce(e.isPublic, true)
    ensures f.isRegistrationOpen == Coalesce(e.isRegistrationOpen, true)
    ensures f.fee == IntOr(e.fee, 0)
    ensures f.description == OrEmpty(e.description) && f.location == OrEmpty(e.location)
    ensures f.meetingLink == OrEmpty(e.meetingLink) && f.meetingPassword == OrEmpty(e.meetingPassword)
    ensures f.imageUrl == OrEmpty(e.imageUrl) && f.bannerUrl == OrEmpty(e.bannerUrl)
    ensures f.maxParticipants == NumberText(e.maxParticipants)
    ensures ParseInt(f.maxParticipants)
      == (if e.maxParticipants.Some? && e.maxParticipants.value != 0 then e.maxParticipants else None)
  {
    NumberTextReadsBack(e.maxParticipants);
    EventForm(OrEmpty(e.title), OrEmpty(e.description), OrEmpty(e.eventType),
      DateTimeInput(e.startDateTime), DateTimeInput(e.endDateTime), OrEmpty(e.location),
      Coalesce(e.isOnline, false), OrEmpty(e.meetingLink), OrEmpty(e.meetingPassword),
      OrEmpty(e.imageUrl), OrEmpty(e.bannerUrl), NumberText(e.maxParticipants),
      Coalesce(e.isPublic, true), Coalesce(e.isRegistrationOpen, true), IntOr(e.fee, 0))
  }

  /** An event that was stored private, closed for registration and not
      online opens with all three boxes unticked; with `||` the first two
      would have come back ticked. */
  lemma EditKeepsExplicitFalse(e: Event)
    requires e.isPublic == Some(false) && e.isRegistrationOpen == Some(false) && e.isOnline == Some(false)
    ensures !EditForm(e).isPublic && !EditForm(e).isRegistrationOpen && !EditForm(e).isOnline
  {
  }

  /** The body of a create or update request. The two date-times are
      converted by `toIso`, the browser's date parsing and ISO formatting,
      which is outside this model. */
  datatype EventPayload = EventPayload(
    title: string,
    description: string,
    eventType: string,
    startDateTime: string,
    endDateTime: string,
    location: string,
    isOnline: bool,
    meetingLink: string,
    meetingPassword: string,
    imageUrl: string,
    bannerUrl: string,
    maxParticipants: JsonInt,
    isPublic: bool,
    isRegistrationOpen: bool,
    fee: int)

  datatype EventRequest = CreateEvent(body: EventPayload) | UpdateEvent(id: string, body: EventPayload)

  /** `maxParticipants ? parseInt(maxParticipants) : null`. */
  function MaxParticipants(text: string): (m: JsonInt)
    ensures text == "" ==> m == NullInt
    ensures forall n :: text == IntToDecimal(n) ==> m == IntValue(n)
  {
    forall n | text == IntToDecimal(n)
      ensures ParseInt(text) == Some(n)
    {
      ParseIntRoundTrip(n);
    }
    if text == "" then NullInt
    else match ParseInt(text)
      case Some(n) => IntValue(n)
      case None => NaN
  }

  predicate MissingRequired(f: EventForm) {
    f.title == "" || f.eventType == "" || f.startDateTime == "" || f.endDateTime == ""
  }

  function Payload(f: EventForm, toIso: string -> string): (p: EventPayload)
    ensures p.title == f.title && p.eventType == f.eventType && p.fee == f.fee
    ensures p.isOnline == f.isOnline && p.isPublic == f.isPublic && p.isRegistrationOpen == f.isRegistrationOpen
    ensures p.maxParticipants == MaxParticipants(f.maxParticipants)
    ensures p.startDateTime == toIso(f.startDateTime) && p.endDateTime == toIso(f.endDateTime)
    ensures p.description == f.description && p.location == f.location
    ensures p.meetingLink == f.meetingLink && p.meetingPassword == f.meetingPassword
    ensures p.imageUrl == f.imageUrl && p.bannerUrl == f.bannerUrl
  {
    EventPayload(f.title, f.description, f.eventType, toIso(f.startDateTime), toIso(f.endDateTime),
      f.location, f.isOnline, f.meetingLink, f.meetingPassword, f.imageUrl, f.bannerUrl,
      MaxParticipants(f.maxParticipants), f.isPublic, f.isRegistrationOpen, f.fee)
  }

  /** `handleSubmit`: nothing while a required field is empty; otherwise a
      create in create mode and an update of the selected event in edit
      mode (with no selected event the update throws before sending). */
  function Submit(mode: ModalMode, selected: Option<Event>, f: EventForm, toIso: string -> string): (r: Option<EventRequest>)
    ensures MissingRequired(f) || mode == ViewMode ==> r.None?
    ensures !MissingRequired(f) && mode == CreateMode ==> r == Some(CreateEvent(Payload(f, toIso)))
    ensures !MissingRequired(f) && mode == EditMode && selected.Some? ==>
      r == Some(UpdateEvent(selected.value.id, Payload(f, toIso)))
    ensures mode == EditMode && selected.None? ==> r.None?
  {
    if MissingRequired(f) then None
    else match mode
      case CreateMode => Some(CreateEvent(Payload(f, toIso)))
      case EditMode => if selected.Some? then Some(UpdateEvent(selected.value.id, Payload(f, toIso))) else None
      case ViewMode => None
  }

  /** The untouched create form is refused: it has no title and no dates. */
  lemma BlankEventIsRefused(selected: Option<Event>, toIso: string -> string)
    ensures Submit(CreateMode, selected, CreateForm(), toIso).None?
  {
  }

  /** Saving an untouched edit form of a complete event sends an update of
      that event carrying back its limit: the stored number, or null when
      it had none (or 0). */
  lemma EditRoundTrip(e: Event, toIso: string -> string)
    requires e.title.Some? && e.title.value != "" && e.eventType.Some? && e.eventType.value != ""
    requires e.startDateTime.Some? && e.startDateTime.value != ""
    requires e.endDateTime.Some? && e.endDateTime.value != ""
    ensures var r := Submit(EditMode, Some(e), EditForm(e), toIso);
      r.Some? && r.value.UpdateEvent? && r.value.id == e.id
      && r.value.body.title == e.title.value && r.value.body.eventType == e.eventType.value
      && r.value.body.maxParticipants == (if e.maxParticipants.Some? && e.maxParticipants.value != 0
                                          then IntValue(e.maxParticipants.value) else NullInt)
  {
    var f := EditForm(e);
    assert f.startDateTime != "" by {
      assert |DateTimeInput(e.startDateTime)| > 0;
    }
    assert f.endDateTime != "" by {
      assert |DateTimeInput(e.endDateTime)| > 0;
    }
    if e.maxParticipants.Some? && e.maxParticipants.value != 0 {
      assert f.maxParticipants == IntToDecimal(e.maxParticipants.value);
    }
  }

  /** The fields the search box looks at. */
  function EventFields(e: Event): seq<Option<string>> {
    [e.title, e.description, e.location, e.eventType, e.status]
  }

  predicate EventHit(term: string, e: Event) {
    FieldHit(term, e.title) || FieldHit(term, e.description) || FieldHit(term, e.location)
    || FieldHit(term, e.eventType) || FieldHit(term, e.status)
  }

  /** The page's hit test is the search box's test on its fields. */
  lemma EventHitMatches(term: string)
    ensures forall e :: EventHit(term, e) == Matches(term, EventFields(e))
  {
  }

  /** `filteredEvents`: title, description, location, type or status. */
  function FilteredEvents(events: seq<Event>, term: string): (r: seq<Event>)
    ensures term == "" ==> r == events
    ensures term != "" ==> forall e :: e in r ==> e in events && EventHit(term, e)
    ensures forall e :: e in events && EventHit(term, e) ==> e in r
    ensures term != "" ==> |r| == Count(events, (e: Event) => EventHit(term, e))
    ensures Subseq(r, events)
  {
    EventHitMatches(term);
    SearchCount(events, term, EventFields, (e: Event) => EventHit(term, e));
    SearchList(events, term, EventFields)
  }
}
