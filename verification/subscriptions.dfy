/** The subscriptions page: the approved enrollments offered in the create
    form, renew and cancel on active subscriptions, the create form and
    the payload it sends, and the formatted columns of the table. */
module Subscriptions {
  import opened Common
  import opened Text
  import opened Search
  import Listing

  /** An enrollment as the enrollment list returns it. */
  datatype Enrollment = Enrollment(id: string, status: Option<string>, studentName: Option<string>, className: Option<string>)

  predicate Approved(e: Enrollment) {
    e.status == Some("APPROVED")
  }

  /** `loadEnrollments`: the approved enrollments of the response, in
      order (`content || []`); a failed call leaves the options as they were. */
  function LoadEnrollments(current: seq<Enrollment>, response: Fetch<Option<seq<Enrollment>>>): (r: seq<Enrollment>)
    ensures response.Failed? ==> r == current
    ensures response.Ok? && response.body.None? ==> r == []
    ensures response.Ok? && response.body.Some? ==>
      (forall e :: e in r <==> e in response.body.value && Approved(e)) && Subseq(r, response.body.value)
      && |r| == Count(response.body.value, Approved)
  {
    match response
    case Failed => current
    case Ok(None) => []
    case Ok(Some(content)) => Filter(content, Approved)
  }

  /** Every option the create form offers is an approved enrollment. */
  lemma OptionsAreApproved(current: seq<Enrollment>, response: Fetch<Option<seq<Enrollment>>>)
    requires forall e :: e in current ==> Approved(e)
    ensures forall e :: e in LoadEnrollments(current, response) ==> Approved(e)
  {
  }

  /** A subscription row. */
  datatype Subscription = Subscription(
    id: Option<string>,
    enrollmentId: string,
    status: Option<string>,
    attendedSessions: JsNum,
    allowedSessions: JsNum)

  datatype SubscriptionAction = ViewSubscription | Renew | CancelSubscription

  /** Renew and Cancel only on active subscriptions; View on every row. */
  predicate Offered(a: SubscriptionAction, status: Option<string>) {
    match a
    case ViewSubscription => true
    case _ => status == Some("ACTIVE")
  }

  /** The requests the two row actions send. */
  datatype Request = RenewEnrollment(enrollmentId: string) | CancelById(subscriptionId: Option<string>)

  /** The request a click sends, if any: Renew goes out at once and names
      the enrollment; Cancel asks for confirmation first and names the
      subscription. */
  function ActionRequest(a: SubscriptionAction, s: Subscription, confirmed: bool): (r: Option<Request>)
    ensures r.Some? ==> Offered(a, s.status) && a != ViewSubscription
    ensures a == Renew && Offered(Renew, s.status) ==> r == Some(RenewEnrollment(s.enrollmentId))
    ensures a == CancelSubscription && Offered(a, s.status) ==> (r.Some? <==> confirmed)
    ensures r.Some? && r.value.CancelById? ==> r.value.subscriptionId == s.id
  {
    if !Offered(a, s.status) then None
    else match a
      case ViewSubscription => None
      case Renew => Some(RenewEnrollment(s.enrollmentId))
      case CancelSubscription => if confirmed then Some(CancelById(s.id)) else None
  }

  /** Only an active subscription can be renewed or cancelled, whatever
      the confirmation says. */
  lemma InactiveRowsSendNothing(a: SubscriptionAction, s: Subscription, confirmed: bool)
    requires s.status != Some("ACTIVE")
    ensures ActionRequest(a, s, confirmed).None?
  {
  }

  /** The create form; numeric inputs hold the text typed into them. */
  datatype Form = Form(enrollmentId: string, month: string, year: string, allowedSessions: string, notes: string)

  /** Today's month (1..12) and year, the only clock input of the form. */
  datatype Today = Today(month: int, year: int)

  /** The form `openModal('create')` starts from. */
  function CreateForm(today: Today): (f: Form)
    ensures f.enrollmentId == "" && f.notes == ""
    ensures ParseInt(f.allowedSessions) == Some(8)
    ensures ParseInt(f.month) == Some(today.month) && ParseInt(f.year) == Some(today.year)
  {
    ParseIntRoundTrip(8);
    ParseIntRoundTrip(today.month);
    ParseIntRoundTrip(today.year);
    Form("", IntToDecimal(today.month), IntToDecimal(today.year), IntToDecimal(8), "")
  }

  /** The create request; a None number is the NaN of a failed `parseInt`. */
  datatype Payload = Payload(enrollmentId: string, month: Option<int>, year: Option<int>, allowedSessions: Option<int>, notes: string)

  /** `handleSubmit`: the number fields go through `parseInt`; the text
      fields are sent as typed. The Create button sits outside the form,
      so nothing is validated first. */
  function Submit(f: Form): (p: Payload)
    ensures p.enrollmentId == f.enrollmentId && p.notes == f.notes
    ensures f.allowedSessions == "" ==> p.allowedSessions.None?
    ensures p.month == ParseInt(f.month) && p.year == ParseInt(f.year)
    ensures p.allowedSessions == ParseInt(f.allowedSessions)
    ensures forall n :: f.month == IntToDecimal(n) ==> p.month == Some(n)
    ensures forall n :: f.year == IntToDecimal(n) ==> p.year == Some(n)
    ensures forall n :: f.allowedSessions == IntToDecimal(n) ==> p.allowedSessions == Some(n)
  {
    ParseIntEmpty();
    forall n: int
      ensures ParseInt(IntToDecimal(n)) == Some(n)
    {
      ParseIntRoundTrip(n);
    }
    Payload(f.enrollmentId, ParseInt(f.month), ParseInt(f.year), ParseInt(f.allowedSessions), f.notes)
  }

  /** Submitting the untouched create form asks for eight sessions in the
      current month, with no enrollment chosen. */
  lemma UntouchedFormPayload(today: Today)
    ensures Submit(CreateForm(today)) == Payload("", Some(today.month), Some(today.year), Some(8), "")
  {
  }

  /** The Attended column: `${attended || 0}/${allowed || 8}`. */
  function AttendedLabel(attended: JsNum, allowed: JsNum): (r: string)
    ensures exists k :: 0 < k < |r| && r[k] == '/'
  {
    var left := IntToDecimal(JsNumOr(attended, 0));
    assert (left + "/" + IntToDecimal(JsNumOr(allowed, 8)))[|left|] == '/';
    left + "/" + IntToDecimal(JsNumOr(allowed, 8))
  }

  /** Both numbers of "x/y" read back with `parseInt`. */
  lemma {:induction false} FractionReadsBack(x: int, y: int)
    ensures ParseInt(IntToDecimal(x) + "/" + IntToDecimal(y)) == Some(x)
    ensures ParseInt((IntToDecimal(x) + "/" + IntToDecimal(y))[|IntToDecimal(x)| + 1..]) == Some(y)
  {
    var l := IntToDecimal(x);
    var b := IntToDecimal(y);
    assert l + "/" + b == l + ("/" + b);
    ParseIntOfDecimal(x, "/" + b);
    assert (l + "/" + b)[|l| + 1..] == b;
    ParseIntRoundTrip(y);
  }

  /** The Attended column reads back: the number before the slash is the
      attended count (0 when missing) and the one after it the allowed
      count (8 when missing or 0). */
  lemma AttendedLabelReadsBack(attended: JsNum, allowed: JsNum)
    ensures ParseInt(AttendedLabel(attended, allowed)) == Some(JsNumOr(attended, 0))
    ensures var k := |IntToDecimal(JsNumOr(attended, 0))| + 1;
      k <= |AttendedLabel(attended, allowed)| && ParseInt(AttendedLabel(attended, allowed)[k..]) == Some(JsNumOr(allowed, 8))
  {
    FractionReadsBack(JsNumOr(attended, 0), JsNumOr(allowed, 8));
  }

  /** A subscription without an allowance shows "x/8". */
  lemma MissingAllowanceShowsEight(attended: JsNum, allowed: JsNum)
    requires !JsTruthy(allowed)
    ensures AttendedLabel(attended, allowed) == IntToDecimal(JsNumOr(attended, 0)) + "/8"
  {
    var left := IntToDecimal(JsNumOr(attended, 0));
    EightReadsEight();
    assert IntToDecimal(JsNumOr(allowed, 8)) == "8";
    assert left + "/" + "8" == left + "/8";
  }

  /** `String(8)` is "8". */
  lemma EightReadsEight()
    ensures IntToDecimal(8) == "8"
  {
    assert DigitChar(8) == '8';
    assert NatToDecimal(8) == [DigitChar(8)];
  }
}
